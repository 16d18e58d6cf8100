/** What the finished annotation promises for every binary: in range, nothing lost, almost every byte accounted for. */
module Finished {
  import opened Bytes
  import opened Schema
  import opened Sections
  import opened Walks
  import opened WalkFacts
  import opened References
  import opened Annotations
  import opened Effects
  import opened Gaps
  import opened SectionGaps
  import opened Shown

  function HeaderSection(x: Input): Section
    requires |x.binary| >= MIN_BUFFER_SIZE
  {
    Section(0, Header, HeaderRegions(x.schema, x.binary, x.isSizePrefixed))
  }

  /**
   * What the walk leaves behind: sections as the binary prescribes them, starting with the header, that refer only to
   * what is annotated too; and if the root offset is in the binary, the root table is built right behind the header.
   */
  ghost predicate IsAnnotation(x: Input, ss: seq<Section>)
    requires InputOk(x)
  {
    && Ascending(ss) && SectionsOk(x, ss) && Closed(x, ss) && VTablesThere(x.binary, ss)
    && HeaderSection(x) in ss
    && var root := RootLocation(x.binary, x.isSizePrefixed);
       IsValidOffset(x.binary, root) ==> TableResolved(x, ss, root) && RootBuilt(x, ss, root)
  }

  ghost predicate RootBuilt(x: Input, ss: seq<Section>, root: nat)
    requires InputOk(x)
  {
    exists vtables :: RootBuiltWith(x, ss, vtables, root)
  }

  ghost predicate RootBuiltWith(x: Input, ss: seq<Section>, vtables: map<nat, seq<VTable>>, root: nat)
    requires InputOk(x)
  {
    HeaderFacts(x.schema, x.binary, x.isSizePrefixed);
    TableBuilt(x, State([HeaderSection(x)], map[]), State(ss, vtables), root, RootTable, x.schema.root)
  }

  lemma StateIsAnnotation(x: Input, header: State, st: State)
    requires InputOk(x) && StateOk(x, st) && header == State([HeaderSection(x)], map[])
             && HeaderSection(x) in st.sections
    requires var root := RootLocation(x.binary, x.isSizePrefixed);
             IsValidOffset(x.binary, root) ==>
               && TableResolved(x, st.sections, root) && NoneHollow(header.sections)
               && TableBuilt(x, header, st, root, RootTable, x.schema.root)
    ensures IsAnnotation(x, st.sections)
  {
    var root := RootLocation(x.binary, x.isSizePrefixed);
    if IsValidOffset(x.binary, root) {
      assert RootBuiltWith(x, st.sections, st.vtables, root);
    }
  }

  /** Every reference that was found good leads to something annotated, or to a table whose vtable is blocked. */
  lemma ReferencesResolved(x: Input, ss: seq<Section>)
    requires InputOk(x) && IsAnnotation(x, ss)
    ensures forall s, r :: s in ss && r in s.regions && r.status == Ok ==> Resolved(x, ss, r)
  {
    forall s, r | s in ss && r in s.regions && r.status == Ok
      ensures Resolved(x, ss, r)
    {
      assert SectionOk(x, s);
      if s.ty != Header {
        assert AllResolved(x, ss, s.regions);
      }
    }
  }

  ghost function HeaderEnd(x: Input): nat
    requires InputOk(x)
  {
    HeaderEnds(x);
    End(HeaderSection(x))
  }

  /** The root offset leads behind the header to a table whose vtable can be read, and lies behind the header too. */
  ghost predicate HasRootTable(x: Input)
    requires InputOk(x)
  {
    var root := RootLocation(x.binary, x.isSizePrefixed);
    && IsValidOffset(x.binary, root) && root >= HeaderEnd(x)
    && match VTableLocation(x.binary, root)
       case None => false
       case Some(at) => IsValidOffset(x.binary, at) && at >= HeaderEnd(x) && IsUsable(x.binary, at)
  }

  /**
   * The root table is annotated with the vtable that its own offset leads to, and so is that vtable, unless something
   * loose takes the table's place.
   */
  lemma RootTableStored(x: Input, ss: seq<Section>) returns (v: VTable)
    requires InputOk(x) && IsAnnotation(x, ss) && HasRootTable(x)
    ensures var root := RootLocation(x.binary, x.isSizePrefixed);
            var at := VTableLocation(x.binary, root).value;
            && v == VTableAt(x.schema, x.binary, at, x.schema.root, root).vtable
            && Stored(ss, TableSectionOf(x, root, RootTable, v), HasOffset64(x.schema))
            && VTableSectionAt(x, at, x.schema.root, root) in ss
  {
    var root := RootLocation(x.binary, x.isSizePrefixed);
    var at := VTableLocation(x.binary, root).value;
    v := VTableAt(x.schema, x.binary, at, x.schema.root, root).vtable;
    var vtables :| RootBuiltWith(x, ss, vtables, root);
    RootStoredWith(x, ss, vtables, root, at);
  }

  lemma RootStoredWith(x: Input, ss: seq<Section>, vtables: map<nat, seq<VTable>>, root: nat, at: nat)
    requires InputOk(x) && VTableLocation(x.binary, root) == Some(at) && IsUsable(x.binary, at)
    requires IsValidOffset(x.binary, at) && RootBuiltWith(x, ss, vtables, root)
    requires HeaderSection(x).regions != [] && root >= End(HeaderSection(x)) > 0 && at >= End(HeaderSection(x))
    ensures var v := VTableAt(x.schema, x.binary, at, x.schema.root, root).vtable;
            Stored(ss, TableSectionOf(x, root, RootTable, v), HasOffset64(x.schema))
    ensures VTableSectionAt(x, at, x.schema.root, root) in ss
  {
    var before, sec := [HeaderSection(x)], VTableSectionAt(x, at, x.schema.root, root);
    RootIsFree(x, root);
    RootIsFree(x, at);
    AddEffect(before, sec);
    assert TableBuiltAt(x, State(before, map[]), State(ss, vtables), root, at, RootTable, x.schema.root);
  }

  /**
   * The root table can be annotated: its vtable is nowhere in the binary, or is where the table is, or lies behind the
   * header and can be read.
   */
  ghost predicate CanBuildRoot(x: Input)
    requires InputOk(x)
  {
    var root := RootLocation(x.binary, x.isSizePrefixed);
    match VTableLocation(x.binary, root)
    case None => true
    case Some(at) => IsValidOffset(x.binary, at) && at != root ==> at >= HeaderEnd(x) && IsUsable(x.binary, at)
  }

  lemma HeaderStateOk(x: Input, ss: seq<Section>)
    requires InputOk(x) && IsAnnotation(x, ss)
    ensures HeaderSection(x).regions != [] && StateOk(x, State([HeaderSection(x)], map[]))
    ensures forall at: nat :: Contains([HeaderSection(x)], at) <==> at < HeaderEnd(x)
  {
    assert SectionOk(x, HeaderSection(x));
  }

  /** Exactly when there is a section at the root offset, from the binary alone. */
  lemma RootTableIff(x: Input, ss: seq<Section>)
    requires InputOk(x) && IsAnnotation(x, ss)
    requires HeaderEnd(x) <= RootLocation(x.binary, x.isSizePrefixed) < |x.binary|
    ensures HasKey(ss, RootLocation(x.binary, x.isSizePrefixed)) <==> CanBuildRoot(x)
  {
    var root, header := RootLocation(x.binary, x.isSizePrefixed), State([HeaderSection(x)], map[]);
    HeaderStateOk(x, ss);
    var vtables :| RootBuiltWith(x, ss, vtables, root);
    TableKeyIff(x, header, State(ss, vtables), root, RootTable, x.schema.root);
  }

  /** Nothing but the header is annotated when the root offset, or the location of the root's vtable, is in it. */
  lemma OnlyHeader(x: Input, ss: seq<Section>)
    requires InputOk(x) && IsAnnotation(x, ss) && IsValidOffset(x.binary, RootLocation(x.binary, x.isSizePrefixed))
    requires var root := RootLocation(x.binary, x.isSizePrefixed);
             || root < HeaderEnd(x)
             || (VTableLocation(x.binary, root).Some? && 0 <= VTableLocation(x.binary, root).value < HeaderEnd(x))
    ensures ss == [HeaderSection(x)]
  {
    var root := RootLocation(x.binary, x.isSizePrefixed);
    HeaderStateOk(x, ss);
    var vtables :| RootBuiltWith(x, ss, vtables, root);
  }

  lemma RootIsFree(x: Input, offset: nat)
    requires InputOk(x) && HeaderSection(x).regions != [] && offset >= End(HeaderSection(x)) > 0
    ensures NoneHollow([HeaderSection(x)]) && !Contains([HeaderSection(x)], offset)
            && !HasKey([HeaderSection(x)], offset)
  {
  }

  lemma HeaderEnds(x: Input)
    requires InputOk(x)
    ensures HeaderSection(x).regions != [] && End(HeaderSection(x)) > 0
  {
  }

  // ---------------------------------------------------------------- what finishing relies on

  /** A section in range that, the header's aside, refers only forward. */
  ghost predicate IsSound(b: seq<byte>, s: Section) {
    && s.key < |b| && s.regions != [] && s.regions[0].offset == s.key
    && AllOk(b, s.key, s.regions) && (s.ty == Header || AllAhead(b, s.key, s.regions))
  }

  /** Sound sections in order, the first at the start of the binary. */
  ghost predicate Sound(b: seq<byte>, ss: seq<Section>) {
    Ascending(ss) && ss != [] && ss[0].key == 0 && forall s :: s in ss ==> IsSound(b, s)
  }

  lemma AnnotationIsSound(x: Input, ss: seq<Section>)
    requires InputOk(x) && IsAnnotation(x, ss)
    ensures Sound(x.binary, ss)
  {
    var header := HeaderSection(x);
    assert header in ss;
    forall s | s in ss
      ensures IsSound(x.binary, s)
    {
      assert SectionOk(x, s);
    }
  }

  lemma FilledLaid(b: seq<byte>, ss: seq<Section>)
    requires Sound(b, ss)
    ensures Laid(b, FillAll(b, ss))
  {
    var fs := FillAll(b, ss);
    forall i | 0 <= i < |ss|
      ensures fs[i].regions != [] && fs[i].key < |b| && fs[i].key < End(fs[i])
    {
      assert ss[i] in ss;
      FillSectionOk(b, ss[i]);
    }
  }

  /** The annotation after both kinds of gaps have been filled. */
  function Finish(b: seq<byte>, ss: seq<Section>): seq<Section>
    requires Sound(b, ss)
  {
    FilledLaid(b, ss);
    Chain(b, FillAll(b, ss), |ss|)
  }

  /** Where a section of the finished annotation comes from. */
  lemma Origin(b: seq<byte>, ss: seq<Section>, s: Section) returns (i: nat)
    requires Sound(b, ss) && s in Finish(b, ss)
    ensures i < |ss| && Laid(b, FillAll(b, ss))
    ensures s == FillSection(b, ss[i]) || FillsGap(b, FillAll(b, ss), i, s)
  {
    var fs := FillAll(b, ss);
    FilledLaid(b, ss);
    ChainElements(b, fs, |fs|, s);
    if s in fs[..|fs|] {
      i :| 0 <= i < |fs| && fs[i] == s;
    } else {
      MissingExact(b, fs, |fs|, s);
      i :| 0 <= i < |fs| && FillsGap(b, fs, i, s);
    }
  }

  // ---------------------------------------------------------------- what holds in the end

  /**
   * Range safety: in the finished annotation of any binary, every region that is not empty lies inside the binary, no
   * region lies before its section, and none reports a cycle.
   */
  lemma EveryRegionInRange(b: seq<byte>, ss: seq<Section>, s: Section)
    requires Sound(b, ss) && s in Finish(b, ss)
    ensures s.regions != [] && AllOk(b, s.key, s.regions)
  {
    var i := Origin(b, ss, s);
    assert ss[i] in ss;
    FillSectionOk(b, ss[i]);
  }

  /**
   * Every reference in the finished annotation, the header's aside, leads strictly forward to where the bytes of its
   * region say, and stays inside the binary.
   */
  lemma EveryReferenceStored(b: seq<byte>, ss: seq<Section>, s: Section)
    requires Sound(b, ss) && s in Finish(b, ss) && s.ty != Header
    ensures AllAhead(b, s.key, s.regions)
  {
    var i := Origin(b, ss, s);
    assert ss[i] in ss;
    FillSectionFills(b, ss[i]);
  }

  /** Nothing that was found is lost or changed by the finishing passes: each section and region is still there. */
  lemma NothingIsLost(b: seq<byte>, ss: seq<Section>, s: Section)
    requires Sound(b, ss) && s in ss
    ensures exists t :: t in Finish(b, ss) && Fills(b, t, s)
  {
    var t := FilledFrom(b, ss, s);
  }

  predicate Annotated(s: Section, p: nat) {
    IsCovered(s.regions, p)
  }

  ghost predicate IsAnnotated(ss: seq<Section>, p: nat) {
    exists s :: s in ss && Annotated(s, p)
  }

  /** Some region of a built section reaches over the byte from the section's offset on. */
  ghost predicate IsReached(b: seq<byte>, ss: seq<Section>, p: nat) {
    exists s :: s in ss && s.key <= p && Reaches(b, s.regions, p)
  }

  /** The byte is in a gap of two bytes or more between filled sections. */
  ghost predicate InGap(b: seq<byte>, ss: seq<Section>, p: nat)
    requires Laid(b, ss)
  {
    exists i :: 0 <= i < |ss| && GapBehind(b, ss, i) && End(ss[i]) <= p < Next(b, ss, i + 1)
  }

  /** What a section takes in after its gaps are filled. */
  lemma SectionCoversIff(b: seq<byte>, s: Section, p: nat)
    requires IsSound(b, s) && p < |b|
    ensures Annotated(FillSection(b, s), p) <==> s.key <= p && Reaches(b, s.regions, p)
  {
    FilledCoversIff(b, s.regions, p);
  }

  /**
   * Exactly which bytes are in a region in the end: those that a region inside the binary reaches over in a built
   * section, and those in a gap of two bytes or more between sections.
   */
  lemma ByteAnnotatedIff(b: seq<byte>, ss: seq<Section>, p: nat)
    requires Sound(b, ss) && p < |b|
    ensures Laid(b, FillAll(b, ss))
    ensures IsAnnotated(Finish(b, ss), p) <==> IsReached(b, ss, p) || InGap(b, FillAll(b, ss), p)
  {
    FilledLaid(b, ss);
    if IsAnnotated(Finish(b, ss), p) {
      AnnotatedComesFrom(b, ss, p);
    }
    if IsReached(b, ss, p) {
      ReachedIsAnnotated(b, ss, p);
    }
    if InGap(b, FillAll(b, ss), p) {
      GapIsAnnotated(b, ss, p);
    }
  }

  lemma AnnotatedComesFrom(b: seq<byte>, ss: seq<Section>, p: nat)
    requires Sound(b, ss) && Laid(b, FillAll(b, ss)) && p < |b| && IsAnnotated(Finish(b, ss), p)
    ensures IsReached(b, ss, p) || InGap(b, FillAll(b, ss), p)
  {
    var s :| s in Finish(b, ss) && Annotated(s, p);
    var i := Origin(b, ss, s);
    assert ss[i] in ss;
    if s == FillSection(b, ss[i]) {
      SectionCoversIff(b, ss[i], p);
    } else {
      GapCoversIff(b, FillAll(b, ss), i, s, p);
    }
  }

  /** A section that fills a gap takes in just that. */
  lemma GapCoversIff(b: seq<byte>, fs: seq<Section>, i: nat, g: Section, p: nat)
    requires Laid(b, fs) && FillsGap(b, fs, i, g)
    ensures Annotated(g, p) <==> End(fs[i]) <= p < Next(b, fs, i + 1)
  {
    var r := g.regions[0];
    assert g.regions == [r] && Within(r, p) == (End(fs[i]) <= p < Next(b, fs, i + 1));
  }

  lemma ReachedIsAnnotated(b: seq<byte>, ss: seq<Section>, p: nat)
    requires Sound(b, ss) && p < |b| && IsReached(b, ss, p)
    ensures IsAnnotated(Finish(b, ss), p)
  {
    var s :| s in ss && s.key <= p && Reaches(b, s.regions, p);
    var i :| 0 <= i < |ss| && ss[i] == s;
    SectionCoversIff(b, s, p);
    FilledInFinish(b, ss, i);
  }

  lemma FilledInFinish(b: seq<byte>, ss: seq<Section>, i: nat)
    requires Sound(b, ss) && i < |ss|
    ensures FillSection(b, ss[i]) in Finish(b, ss)
  {
    var fs := FillAll(b, ss);
    FilledLaid(b, ss);
    assert fs[i] in fs[..|fs|];
    ChainElements(b, fs, |fs|, fs[i]);
  }

  lemma GapIsAnnotated(b: seq<byte>, ss: seq<Section>, p: nat)
    requires Sound(b, ss) && Laid(b, FillAll(b, ss)) && InGap(b, FillAll(b, ss), p)
    ensures IsAnnotated(Finish(b, ss), p)
  {
    var fs := FillAll(b, ss);
    var i :| 0 <= i < |fs| && GapBehind(b, fs, i) && End(fs[i]) <= p < Next(b, fs, i + 1);
    var g := MissingBehind(b, fs, i)[0];
    assert FillsGap(b, fs, i, g);
    GapCoversIff(b, fs, i, g, p);
    MissingExact(b, fs, |fs|, g);
    ChainElements(b, fs, |fs|, g);
  }

  /** A single byte between the end of a section and the next section, or the end of the binary. */
  predicate LoneByte(b: seq<byte>, ss: seq<Section>, s: Section, p: nat)
    requires s.regions != []
  {
    p == End(s) && (p + 1 == |b| || HasKey(ss, p + 1))
  }

  /** The last region of the section starts outside the binary: an error region, without an extent. */
  predicate EndsAstray(b: seq<byte>, s: Section)
    requires s.regions != []
  {
    !IsValidOffset(b, s.regions[|s.regions| - 1].offset)
  }

  /** The byte belongs to s, or is alone behind it. */
  predicate Accounts(b: seq<byte>, ss: seq<Section>, s: Section, p: nat) {
    && s.regions != [] && s.key <= p <= End(s)
    && (Annotated(s, p) || LoneByte(b, ss, s, p) || (p < End(s) && EndsAstray(b, s)))
  }

  /**
   * Every byte of every binary is in a region, except single bytes between sections and bytes of sections that a last
   * region outside the binary makes look longer than they are.
   */
  lemma EveryByteAccounted(b: seq<byte>, ss: seq<Section>, p: nat)
    requires Sound(b, ss) && p < |b|
    ensures exists s :: s in Finish(b, ss) && Accounts(b, Finish(b, ss), s, p)
  {
    var fs, c := FillAll(b, ss), Finish(b, ss);
    FilledLaid(b, ss);
    ChainFacts(b, fs, |fs|);
    ChainHead(b, fs, |fs|);
    var i := ByteInSection(b, c, p);
    var s := c[i];
    assert s in c;
    if p == End(s) {
      LoneByteBehind(b, c, i);
    } else if !EndsAstray(b, s) {
      SectionCovers(b, ss, s, p);
    }
  }

  lemma LoneByteBehind(b: seq<byte>, c: seq<Section>, i: nat)
    requires NoneHollow(c) && i < |c| && c[i].regions != [] && Following(c, i, |b|) == End(c[i]) + 1
    ensures LoneByte(b, c, c[i], End(c[i]))
  {
    if i + 1 < |c| {
      assert c[i + 1] in c;
    }
  }

  lemma SectionCovers(b: seq<byte>, ss: seq<Section>, s: Section, p: nat)
    requires Sound(b, ss) && s in Finish(b, ss) && s.regions != []
    requires !EndsAstray(b, s) && s.key <= p < End(s) && p < |b|
    ensures Annotated(s, p)
  {
    var j := Origin(b, ss, s);
    assert ss[j] in ss;
    if s == FillSection(b, ss[j]) {
      SectionCoversIff(b, ss[j], p);
      FilledReach(b, s.key, ss[j].regions, s.regions[|s.regions| - 1], p);
    } else {
      GapCoversIff(b, FillAll(b, ss), j, s, p);
    }
  }

  // ---------------------------------------------------------------- fields

  /**
   * The vtable was read at the place, as seen from a table: its entries are as the binary stores them, and those for
   * fields of the schema are exactly those it lists.
   */
  ghost predicate EntriesRead(x: Input, at: nat, v: VTable, referrer: nat)
    requires InputOk(x) && v.table < |x.schema.tables|
  {
    && ReadFor(x, at, v, referrer) && Read(x.binary, at, 2).Some?
    && EntriesStored(x.binary, at, v.fields)
    && forall id :: 0 <= id < |x.schema.tables[v.table]| ==>
         (id in v.fields && v.fields[id].field == Some(x.schema.tables[v.table][id])
          <==> Listed(x.binary, at, Read(x.binary, at, 2).value, referrer, id))
  }

  /** A region of the section, at the place, refers to the target as to a thing of that kind. */
  predicate RefersAt(s: Section, at: nat, target: nat, what: Referent) {
    exists r :: r in s.regions && r.offset == at && r.target == target && r.refersTo == what
  }

  /**
   * Every table section of the finished annotation is that of a table reached, with a vtable whose entries are as the
   * binary stores them; and each of its fields that is present, and if it is a union is shown, has a region at its
   * place, which refers to what the field leads to.
   */
  lemma EveryFieldAnnotated(x: Input, ss: seq<Section>, s: Section) returns (t: Section, v: VTable, referrer: nat)
    requires InputOk(x) && IsAnnotation(x, ss) && Sound(x.binary, ss)
    requires s in ss && s.ty in {TableSection, RootTable}
    requires VTableLocation(x.binary, s.key).Some? && IsValidOffset(x.binary, VTableLocation(x.binary, s.key).value)
    ensures t in Finish(x.binary, ss) && Fills(x.binary, t, s) && TableAt(x, s.key, v)
            && TableReached(x, referrer, v.table)
    ensures EntriesRead(x, VTableLocation(x.binary, s.key).value, v, referrer)
    ensures forall id :: id in v.fields && IsShown(x.schema, x.binary, s.key, v.fields[id], v.fields) ==>
              exists r :: r in t.regions && r.offset == s.key + v.fields[id].offset
    ensures forall id, target, what :: FieldLeads(x.schema, x.binary, s.key, v.fields, id, target, what) ==>
              RefersAt(t, s.key + v.fields[id].offset, target, what)
  {
    assert SectionOk(x, s);
    v, referrer := FieldsOf(x, s);
    t := FilledFrom(x.binary, ss, s);
    forall id, target, what | FieldLeads(x.schema, x.binary, s.key, v.fields, id, target, what)
      ensures RefersAt(t, s.key + v.fields[id].offset, target, what)
    {
      var r :| r in s.regions && r.offset == s.key + v.fields[id].offset && r.target == target && r.refersTo == what;
    }
  }

  /** The same before gaps are filled. */
  lemma FieldsOf(x: Input, s: Section) returns (v: VTable, referrer: nat)
    requires InputOk(x) && SectionOk(x, s) && s.ty in {TableSection, RootTable}
    requires VTableLocation(x.binary, s.key).Some? && IsValidOffset(x.binary, VTableLocation(x.binary, s.key).value)
    ensures TableAt(x, s.key, v) && TableReached(x, referrer, v.table)
    ensures EntriesRead(x, VTableLocation(x.binary, s.key).value, v, referrer)
    ensures forall id :: id in v.fields && IsShown(x.schema, x.binary, s.key, v.fields[id], v.fields) ==>
              exists r :: r in s.regions && r.offset == s.key + v.fields[id].offset
    ensures forall id, target, what :: FieldLeads(x.schema, x.binary, s.key, v.fields, id, target, what) ==>
              RefersAt(s, s.key + v.fields[id].offset, target, what)
  {
    var b, at := x.binary, VTableLocation(x.binary, s.key).value;
    v := TableOf(x, s);
    referrer :| ReadFor(x, at, v, referrer) && TableReached(x, referrer, v.table);
    EntriesAreRead(x, at, v, referrer);
    VTableEntries(x, at, v);
    VTableIds(x.schema, b, at, v.table, referrer);
    forall id | id in v.fields && IsShown(x.schema, b, s.key, v.fields[id], v.fields)
      ensures exists r :: r in s.regions && r.offset == s.key + v.fields[id].offset
    {
      TableCoversFields(x.schema, b, s.key, v, id);
    }
    forall id, target, what | FieldLeads(x.schema, b, s.key, v.fields, id, target, what)
      ensures RefersAt(s, s.key + v.fields[id].offset, target, what)
    {
      var r := FieldRefers(x, s.key, v, id, target, what);
    }
  }

  /**
   * The vtable of every table section can be read and is annotated, at the distance in front of the table, or behind
   * it, that the table's first four bytes hold.
   */
  lemma EveryVTableAnnotated(x: Input, ss: seq<Section>, s: Section) returns (t: Section, u: Section, w: Section)
    requires InputOk(x) && IsAnnotation(x, ss) && Sound(x.binary, ss)
    requires s in ss && s.ty in {TableSection, RootTable}
    requires VTableLocation(x.binary, s.key).Some? && IsValidOffset(x.binary, VTableLocation(x.binary, s.key).value)
    ensures var at := VTableLocation(x.binary, s.key).value;
            && at == s.key - AsInt32(Read(x.binary, s.key, 4).value) && IsUsable(x.binary, at)
            && t in Finish(x.binary, ss) && Fills(x.binary, t, s)
            && Region(s.key, 4, SOffset, Ok, at, Nothing) in t.regions
            && w in ss && w.key == at && w.ty == VTableSection && Explained(x, w)
            && u in Finish(x.binary, ss) && Fills(x.binary, u, w)
  {
    assert SectionOk(x, s);
    FirstRegionOf(x, s);
    w := VTableOf(x, ss, s);
    t := FilledFrom(x.binary, ss, s);
    u := FilledFrom(x.binary, ss, w);
  }

  lemma FirstRegionOf(x: Input, s: Section)
    requires InputOk(x) && SectionOk(x, s) && s.ty in {TableSection, RootTable}
    requires VTableLocation(x.binary, s.key).Some? && IsValidOffset(x.binary, VTableLocation(x.binary, s.key).value)
    ensures Region(s.key, 4, SOffset, Ok, VTableLocation(x.binary, s.key).value, Nothing) in s.regions
    ensures IsUsable(x.binary, VTableLocation(x.binary, s.key).value)
  {
    var v := TableOf(x, s);
    assert s.regions[0] == Region(s.key, 4, SOffset, Ok, VTableLocation(x.binary, s.key).value, Nothing);
  }

  lemma VTableOf(x: Input, ss: seq<Section>, s: Section) returns (w: Section)
    requires InputOk(x) && SectionsOk(x, ss) && VTablesThere(x.binary, ss)
    requires s in ss && s.ty in {TableSection, RootTable}
    requires VTableLocation(x.binary, s.key).Some? && IsValidOffset(x.binary, VTableLocation(x.binary, s.key).value)
    ensures w in ss && w.key == VTableLocation(x.binary, s.key).value && w.ty == VTableSection && Explained(x, w)
  {
    assert VTableThere(x.binary, ss, s);
    w :| w in ss && w.key == VTableLocation(x.binary, s.key).value && w.ty == VTableSection;
    assert SectionOk(x, w);
  }

  lemma FilledFrom(b: seq<byte>, ss: seq<Section>, s: Section) returns (t: Section)
    requires Sound(b, ss) && s in ss
    ensures t in Finish(b, ss) && t == FillSection(b, s) && Fills(b, t, s)
  {
    var i :| 0 <= i < |ss| && ss[i] == s;
    t := FillSection(b, s);
    FilledInFinish(b, ss, i);
    FillSectionFills(b, s);
  }

  lemma EntriesAreRead(x: Input, at: nat, v: VTable, referrer: nat)
    requires InputOk(x) && v.table < |x.schema.tables| && ReadFor(x, at, v, referrer)
    ensures EntriesRead(x, at, v, referrer)
  {
    VTableEntriesStored(x.schema, x.binary, at, v.table, referrer);
    forall id | 0 <= id < |x.schema.tables[v.table]|
      ensures id in v.fields && v.fields[id].field == Some(x.schema.tables[v.table][id])
              <==> Listed(x.binary, at, Read(x.binary, at, 2).value, referrer, id)
    {
      FieldEntryIff(x.schema, x.binary, at, v.table, referrer, id);
    }
  }

  /** The vtable that a table section was made with. */
  lemma TableOf(x: Input, s: Section) returns (v: VTable)
    requires InputOk(x) && s.key < |x.binary| && s.ty in {TableSection, RootTable} && Explained(x, s)
    requires VTableLocation(x.binary, s.key).Some? && IsValidOffset(x.binary, VTableLocation(x.binary, s.key).value)
    ensures TableAt(x, s.key, v) && s.regions == TableRegions(x.schema, x.binary, s.key, v)
  {
    var t := x.schema.root;
    if s.ty == RootTable {
      RootReached(x);
    } else {
      t :| TableReached(x, s.key, t) && TableExplained(x, s.key, t, s.regions);
    }
    var at := VTableLocation(x.binary, s.key).value;
    v :| VTableReached(x, at, v) && v.table == t && s.regions == TableRegions(x.schema, x.binary, s.key, v);
    TableIsAt(x, s.key, at, v);
  }

  // ---------------------------------------------------------------- overlaps

  /** If the filled sections do not overlap, the finished annotation does not either. */
  lemma FinishDisjoint(b: seq<byte>, ss: seq<Section>)
    requires Sound(b, ss) && NoneHollow(FillAll(b, ss)) && Disjoint(FillAll(b, ss))
    ensures Laid(b, Finish(b, ss)) && Disjoint(Finish(b, ss))
  {
    FilledLaid(b, ss);
    ChainFacts(b, FillAll(b, ss), |ss|);
    ChainDisjoint(b, FillAll(b, ss), |ss|);
  }
}
