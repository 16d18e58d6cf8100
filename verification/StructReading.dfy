/** A struct that the emitted code has written, read forward by the annotator. */
module StructReading {
  import opened Bytes
  import opened Schema
  import opened Walks
  import opened WalkFacts
  import opened StructBodies

  /** What is at an offset of a struct: the value of an argument, or padding. */
  datatype Item = Leaf(offset: nat, base: BaseType, path: Path, ids: seq<int>) | Blank(offset: nat, length: nat)

  /** The items of a struct at off, in the order of their offsets. */
  function Items(def: StructDef, off: nat, path: Path, ids: seq<int>): seq<Item>
    decreases def, 0
  {
    FieldsItems(def.fields, off, 0, path, ids)
  }

  function FieldsItems(fields: seq<StructField>, off: nat, k: nat, path: Path, ids: seq<int>): seq<Item>
    decreases fields, 0
  {
    if fields == [] then []
    else
      var f := fields[0];
      assert f.ty < f;
      var behind := off + FieldSize(f.ty);
      TypeItems(f.ty, off, path + [k], ids) + Blanks(behind, f.padding)
      + FieldsItems(fields[1..], behind + f.padding, k + 1, path, ids)
  }

  function Blanks(off: nat, padding: nat): seq<Item> {
    if padding > 0 then [Blank(off, padding)] else []
  }

  function TypeItems(ty: StructFieldType, off: nat, path: Path, ids: seq<int>): seq<Item>
    decreases ty, 0
  {
    match ty
    case ScalarField(base) => [Leaf(off, base, path, ids)]
    case NestedField(def) => Items(def, off, path, ids)
    case ScalarArray(base, n) => ScalarsItems(base, n, off, path, ids)
    case StructArray(def, n) => StructsItems(def, n, off, path, ids)
  }

  function ScalarsItems(base: BaseType, n: nat, off: nat, path: Path, ids: seq<int>): seq<Item> {
    if n == 0 then []
    else ScalarsItems(base, n - 1, off, path, ids) + [Leaf(off + (n - 1) * TypeSize(base), base, path, ids + [n - 1])]
  }

  function StructsItems(def: StructDef, n: nat, off: nat, path: Path, ids: seq<int>): seq<Item>
    decreases def, n + 1
  {
    if n == 0 then []
    else StructsItems(def, n - 1, off, path, ids) + Items(def, off + (n - 1) * def.bytesize, path, ids + [n - 1])
  }

  // ---------------------------------------------------------------- the contents

  /** The bytes of b are those of the item: the argument's, least significant first, or zeros. */
  predicate Holds(b: seq<byte>, item: Item, args: Args) {
    match item
    case Leaf(offset, base, path, ids) =>
      var size := TypeSize(base);
      offset + size <= |b| && b[offset..offset + size] == ToLE(args(path, ids), size)
    case Blank(offset, length) => offset + length <= |b| && b[offset..offset + length] == Zeros(length)
  }

  ghost predicate AllHold(b: seq<byte>, items: seq<Item>, args: Args) {
    forall i :: 0 <= i < |items| ==> Holds(b, items[i], args)
  }

  /** The bytes s are in b at off. */
  predicate At(b: seq<byte>, off: nat, s: seq<byte>) {
    off + |s| <= |b| && b[off..off + |s|] == s
  }

  lemma AtBoth(b: seq<byte>, off: nat, s: seq<byte>, t: seq<byte>)
    requires At(b, off, s + t)
    ensures At(b, off, s) && At(b, off + |s|, t)
  {
    assert s == (s + t)[..|s|] && t == (s + t)[|s|..];
  }

  lemma HoldConcat(b: seq<byte>, s: seq<Item>, t: seq<Item>, args: Args)
    requires AllHold(b, s, args) && AllHold(b, t, args)
    ensures AllHold(b, s + t, args)
  {
  }

  lemma {:induction false} ItemsHold(b: seq<byte>, def: StructDef, off: nat, path: Path, ids: seq<int>, args: Args)
    requires LaidOut(def) && At(b, off, Image(def, path, ids, args))
    ensures AllHold(b, Items(def, off, path, ids), args)
    decreases def, 0
  {
    FieldsHold(b, def.fields, off, 0, def.minalign, 0, path, ids, args);
  }

  lemma {:induction false} FieldsHold(b: seq<byte>, fields: seq<StructField>, off: nat, at: nat, align: nat, k: nat,
                                      path: Path,
                                      ids: seq<int>, args: Args)
    requires FieldsLaidOut(fields, at, align) && At(b, off, FieldsImage(fields, k, path, ids, args))
    ensures AllHold(b, FieldsItems(fields, off, k, path, ids), args)
    decreases fields, 0
  {
    if fields != [] {
      var f := fields[0];
      assert f.ty < f;
      var size := FieldSize(f.ty);
      var image, rest := TypeImage(f.ty, path + [k], ids, args), FieldsImage(fields[1..], k + 1, path, ids, args);
      TypeImageSize(f.ty, at, align, path + [k], ids, args);
      AtBoth(b, off, image + Zeros(f.padding), rest);
      AtBoth(b, off, image, Zeros(f.padding));
      TypeHolds(b, f.ty, off, at, align, path + [k], ids, args);
      FieldsHold(b, fields[1..], off + size + f.padding, at + size + f.padding, align, k + 1, path, ids, args);
      HoldConcat(b, TypeItems(f.ty, off, path + [k], ids), Blanks(off + size, f.padding), args);
      HoldConcat(b, TypeItems(f.ty, off, path + [k], ids) + Blanks(off + size, f.padding),
                 FieldsItems(fields[1..], off + size + f.padding, k + 1, path, ids), args);
    }
  }

  lemma {:induction false} TypeHolds(b: seq<byte>, ty: StructFieldType, off: nat, at: nat, align: nat, path: Path,
                                     ids: seq<int>,
                                     args: Args)
    requires TypeLaidOut(ty, at, align) && At(b, off, TypeImage(ty, path, ids, args))
    ensures AllHold(b, TypeItems(ty, off, path, ids), args)
    decreases ty, 0
  {
    match ty
    case ScalarField(_) =>
    case NestedField(def) => ItemsHold(b, def, off, path, ids, args);
    case ScalarArray(base, n) => ScalarsHold(b, base, n, off, path, ids, args);
    case StructArray(def, n) => StructsHold(b, def, n, off, path, ids, args);
  }

  lemma {:induction false} ScalarsHold(b: seq<byte>, base: BaseType, n: nat, off: nat, path: Path, ids: seq<int>,
                                       args: Args)
    requires At(b, off, ScalarsImage(base, n, path, ids, args))
    ensures AllHold(b, ScalarsItems(base, n, off, path, ids), args)
  {
    if n > 0 {
      var before, last := ScalarsImage(base, n - 1, path, ids, args), ToLE(args(path, ids + [n - 1]), TypeSize(base));
      AtBoth(b, off, before, last);
      ScalarsImageSize(base, n - 1, path, ids, args);
      ScalarsHold(b, base, n - 1, off, path, ids, args);
      HoldConcat(b, ScalarsItems(base, n - 1, off, path, ids),
                 [Leaf(off + (n - 1) * TypeSize(base), base, path, ids + [n - 1])], args);
    }
  }

  lemma {:induction false} StructsHold(b: seq<byte>, def: StructDef, n: nat, off: nat, path: Path, ids: seq<int>,
                                       args: Args)
    requires LaidOut(def) && At(b, off, StructsImage(def, n, path, ids, args))
    ensures AllHold(b, StructsItems(def, n, off, path, ids), args)
    decreases def, n + 1
  {
    if n > 0 {
      var before := StructsImage(def, n - 1, path, ids, args);
      AtBoth(b, off, before, Image(def, path, ids + [n - 1], args));
      StructsImageSize(def, n - 1, path, ids, args);
      StructsHold(b, def, n - 1, off, path, ids, args);
      ItemsHold(b, def, off + (n - 1) * def.bytesize, path, ids + [n - 1], args);
      HoldConcat(b, StructsItems(def, n - 1, off, path, ids),
                 Items(def, off + (n - 1) * def.bytesize, path, ids + [n - 1]), args);
    }
  }

  // ---------------------------------------------------------------- the regions

  function RegionOf(item: Item): Region {
    match item
    case Leaf(offset, base, _, _) => Plain(offset, TypeSize(base), RegionTypeOf(base), Ok)
    case Blank(offset, length) => Plain(offset, length, Uint8, Ok)
  }

  function RegionsOf(items: seq<Item>): (rs: seq<Region>)
    ensures |rs| == |items| && forall i :: 0 <= i < |items| ==> rs[i] == RegionOf(items[i])
  {
    seq(|items|, i requires 0 <= i < |items| => RegionOf(items[i]))
  }

  lemma RegionsConcat(s: seq<Item>, t: seq<Item>)
    ensures RegionsOf(s + t) == RegionsOf(s) + RegionsOf(t)
  {
  }

  /** The last bytes of the struct are padding. */
  predicate EndsInPadding(def: StructDef)
    decreases def, 0
  {
    FieldsEndInPadding(def.fields)
  }

  predicate FieldsEndInPadding(fields: seq<StructField>)
    decreases fields, 0
  {
    fields != [] &&
    (var f := fields[0];
     assert f.ty < f;
     if |fields| == 1 then f.padding > 0 || TypeEndsInPadding(f.ty) else FieldsEndInPadding(fields[1..]))
  }

  predicate TypeEndsInPadding(ty: StructFieldType)
    decreases ty, 0
  {
    match ty
    case NestedField(def) => EndsInPadding(def)
    case StructArray(def, n) => EndsInPadding(def)
    case _ => false
  }

  /** size bytes at off are inside b, and if they end where b ends, they do not end in padding. */
  predicate Fits(b: seq<byte>, off: nat, size: nat, padded: bool) {
    off + size < |b| || (off + size == |b| && !padded)
  }

  /** The walk reads every item, and no more. */
  predicate Reads(w: Walk, items: seq<Item>, end: nat) {
    w == Walk(RegionsOf(items), end)
  }

  lemma {:induction false} SizePositive(def: StructDef)
    requires StructOk(def) && LaidOut(def)
    ensures def.bytesize > 0
    decreases def, 0
  {
    TypePositive(def.fields[0].ty, 0, def.minalign);
  }

  lemma {:induction false} TypePositive(ty: StructFieldType, off: nat, align: nat)
    requires FieldTypeOk(ty) && TypeLaidOut(ty, off, align)
    ensures FieldSize(ty) > 0
    decreases ty, 0
  {
    match ty
    case NestedField(def) => SizePositive(def);
    case StructArray(def, n) =>
      SizePositive(def);
      MulAtLeast(def.bytesize, n);
    case _ =>
  }

  lemma {:induction false} WalkReads(b: seq<byte>, def: StructDef, off: nat, path: Path, ids: seq<int>)
    requires |b| >= MIN_BUFFER_SIZE && StructOk(def) && LaidOut(def) && Fits(b, off, def.bytesize, EndsInPadding(def))
    ensures Reads(StructWalk(b, off, def), Items(def, off, path, ids), off + def.bytesize)
    decreases def, 0
  {
    FieldsRead(b, def.fields, off, 0, def.minalign, 0, path, ids);
  }

  ghost predicate FieldsAreRead(b: seq<byte>, fields: seq<StructField>, off: nat, k: nat, path: Path, ids: seq<int>) {
    Reads(FieldsWalk(b, off, fields), FieldsItems(fields, off, k, path, ids), off + FieldsSize(fields))
  }

  lemma {:induction false} FieldsRead(b: seq<byte>, fields: seq<StructField>, off: nat, at: nat, align: nat, k: nat,
                                      path: Path,
                                      ids: seq<int>)
    requires |b| >= MIN_BUFFER_SIZE && (forall f :: f in fields ==> FieldTypeOk(f.ty))
             && FieldsLaidOut(fields, at, align)
    requires Fits(b, off, FieldsSize(fields), FieldsEndInPadding(fields))
    ensures FieldsAreRead(b, fields, off, k, path, ids)
    decreases fields, 0
  {
    if fields != [] {
      var f, rest := fields[0], fields[1..];
      assert f.ty < f;
      var next := off + FieldSize(f.ty) + f.padding;
      if rest != [] {
        TypePositive(rest[0].ty, at + FieldSize(f.ty) + f.padding, align);
      }
      TypeReads(b, f.ty, off, at, align, path + [k], ids);
      FieldsRead(b, rest, next, at + FieldSize(f.ty) + f.padding, align, k + 1, path, ids);
      FieldThenRest(b, fields, off, k, path, ids);
    }
  }

  lemma FieldThenRest(b: seq<byte>, fields: seq<StructField>, off: nat, k: nat, path: Path, ids: seq<int>)
    requires fields != []
    requires var f, next := fields[0], off + FieldSize(fields[0].ty);
             && Reads(FieldWalk(b, off, f.ty), TypeItems(f.ty, off, path + [k], ids), next)
             && (f.padding > 0 ==> IsValidOffset(b, next + f.padding))
             && FieldsAreRead(b, fields[1..], next + f.padding, k + 1, path, ids)
    ensures FieldsAreRead(b, fields, off, k, path, ids)
  {
    var f, next := fields[0], off + FieldSize(fields[0].ty);
    var w, p := FieldWalk(b, off, f.ty), PaddingWalk(b, next, f.padding);
    var r := FieldsWalk(b, next + f.padding, fields[1..]);
    var s, t, u := TypeItems(f.ty, off, path + [k], ids), Blanks(next, f.padding),
                   FieldsItems(fields[1..], next + f.padding, k + 1, path, ids);
    ReadsInOrder(w, p, r, s, t, u);
    FieldsInOrder(b, fields, off, k, path, ids);
    AreReadIs(b, fields, off, k, path, ids, Walk(w.regions + p.regions + r.regions, r.end), s + t + u);
  }

  lemma AreReadIs(b: seq<byte>, fields: seq<StructField>, off: nat, k: nat, path: Path, ids: seq<int>, w: Walk,
                  items: seq<Item>)
    requires w == FieldsWalk(b, off, fields) && items == FieldsItems(fields, off, k, path, ids)
    requires Reads(w, items, off + FieldsSize(fields))
    ensures FieldsAreRead(b, fields, off, k, path, ids)
  {
  }

  /** One field, its padding, and the rest. */
  lemma FieldsInOrder(b: seq<byte>, fields: seq<StructField>, off: nat, k: nat, path: Path, ids: seq<int>)
    requires fields != [] && FieldWalk(b, off, fields[0].ty).end == off + FieldSize(fields[0].ty)
    requires var at := off + FieldSize(fields[0].ty);
             PaddingWalk(b, at, fields[0].padding).end == at + fields[0].padding
    ensures var f, at := fields[0], off + FieldSize(fields[0].ty);
            var r := FieldsWalk(b, at + f.padding, fields[1..]);
            && FieldsWalk(b, off, fields)
               == Walk(FieldWalk(b, off, f.ty).regions + PaddingWalk(b, at, f.padding).regions + r.regions, r.end)
            && FieldsItems(fields, off, k, path, ids)
               == TypeItems(f.ty, off, path + [k], ids) + Blanks(at, f.padding)
                  + FieldsItems(fields[1..], at + f.padding, k + 1, path, ids)
  {
    assert fields[0].ty < fields[0];
  }

  lemma ReadsInOrder(w: Walk, p: Walk, r: Walk, s: seq<Item>, t: seq<Item>, u: seq<Item>)
    requires Reads(w, s, w.end) && Reads(p, t, p.end) && Reads(r, u, r.end)
    ensures Reads(Walk(w.regions + p.regions + r.regions, r.end), s + t + u, r.end)
  {
    RegionsConcat(s, t);
    RegionsConcat(s + t, u);
  }

  lemma {:induction false} TypeReads(b: seq<byte>, ty: StructFieldType, off: nat, at: nat, align: nat, path: Path,
                                     ids: seq<int>)
    requires |b| >= MIN_BUFFER_SIZE && FieldTypeOk(ty) && TypeLaidOut(ty, at, align)
    requires Fits(b, off, FieldSize(ty), TypeEndsInPadding(ty))
    ensures Reads(FieldWalk(b, off, ty), TypeItems(ty, off, path, ids), off + FieldSize(ty))
    decreases ty, 0
  {
    match ty
    case ScalarField(_) =>
    case NestedField(def) => WalkReads(b, def, off, path, ids);
    case ScalarArray(base, n) => ScalarsRead(b, base, n, off, path, ids);
    case StructArray(def, n) => StructsRead(b, def, n, off, path, ids);
  }

  /** The scalars of an array, taken from the back. */
  lemma {:induction false} ScalarArraySnoc(b: seq<byte>, off: nat, base: BaseType, n: nat)
    requires |b| >= MIN_BUFFER_SIZE && n > 0 && off + n * TypeSize(base) <= |b|
    ensures var v := ScalarArrayWalk(b, off, base, n - 1);
            var w := ScalarWalk(b, v.end, base);
            ScalarArrayWalk(b, off, base, n) == Walk(v.regions + w.regions, w.end)
    decreases n
  {
    if n == 1 {
      assert ScalarArrayWalk(b, off, base, 0) == Walk([], off);
      assert ScalarArrayWalk(b, off + TypeSize(base), base, 0) == Walk([], off + TypeSize(base));
    } else {
      var size, first := TypeSize(base), ScalarWalk(b, off, base);
      MulAtLeast(size, n - 1);
      assert off + size + (n - 1) * size == off + n * size;
      ScalarArraySnoc(b, off + size, base, n - 1);
      var v := ScalarArrayWalk(b, off + size, base, n - 2);
      var w := ScalarWalk(b, v.end, base);
      assert ScalarArrayWalk(b, off, base, n - 1) == Walk(first.regions + v.regions, v.end);
      assert first.regions + (v.regions + w.regions) == first.regions + v.regions + w.regions;
    }
  }

  lemma {:induction false} ScalarsRead(b: seq<byte>, base: BaseType, n: nat, off: nat, path: Path, ids: seq<int>)
    requires |b| >= MIN_BUFFER_SIZE && off + n * TypeSize(base) <= |b|
    ensures Reads(ScalarArrayWalk(b, off, base, n), ScalarsItems(base, n, off, path, ids), off + n * TypeSize(base))
  {
    if n > 0 {
      var at := off + (n - 1) * TypeSize(base);
      assert at + TypeSize(base) == off + n * TypeSize(base);
      ScalarsRead(b, base, n - 1, off, path, ids);
      ScalarArraySnoc(b, off, base, n);
      RegionsConcat(ScalarsItems(base, n - 1, off, path, ids), [Leaf(at, base, path, ids + [n - 1])]);
    }
  }

  /** The structs of an array, taken from the back. */
  lemma {:induction false} StructArraySnoc(b: seq<byte>, off: nat, def: StructDef, n: nat)
    requires n > 0
    ensures var v := StructArrayWalk(b, off, def, n - 1);
            var w := StructWalk(b, v.end, def);
            StructArrayWalk(b, off, def, n) == Walk(v.regions + w.regions, w.end)
    decreases n
  {
    if n > 1 {
      StructArraySnoc(b, StructWalk(b, off, def).end, def, n - 1);
    }
  }

  lemma ReadsBehind(v: Walk, w: Walk, s: seq<Item>, t: seq<Item>)
    requires Reads(v, s, v.end) && Reads(w, t, w.end)
    ensures Reads(Walk(v.regions + w.regions, w.end), s + t, w.end)
  {
    RegionsConcat(s, t);
  }

  lemma {:induction false} StructsRead(b: seq<byte>, def: StructDef, n: nat, off: nat, path: Path, ids: seq<int>)
    requires |b| >= MIN_BUFFER_SIZE && StructOk(def) && LaidOut(def)
    requires Fits(b, off, n * def.bytesize, n > 0 && EndsInPadding(def))
    ensures Reads(StructArrayWalk(b, off, def, n), StructsItems(def, n, off, path, ids), off + n * def.bytesize)
    decreases def, n + 1
  {
    if n > 0 {
      var at := off + (n - 1) * def.bytesize;
      assert at + def.bytesize == off + n * def.bytesize;
      SizePositive(def);
      StructsRead(b, def, n - 1, off, path, ids);
      WalkReads(b, def, at, path, ids + [n - 1]);
      StructArraySnoc(b, off, def, n);
      ReadsBehind(StructArrayWalk(b, off, def, n - 1), StructWalk(b, at, def), StructsItems(def, n - 1, off, path, ids),
                  Items(def, at, path, ids + [n - 1]));
    }
  }

  /** A vector of structs is read struct by struct. */
  lemma {:induction false} StructElementsAreArray(b: seq<byte>, at: nat, def: StructDef, n: nat)
    requires |b| >= MIN_BUFFER_SIZE && StructOk(def) && LaidOut(def) && at + n * def.bytesize <= |b|
    ensures StructElements(b, at, def, n) == StructArrayWalk(b, at, def, n).regions
    decreases n
  {
    if n > 0 {
      assert at + def.bytesize + (n - 1) * def.bytesize == at + n * def.bytesize;
      SizePositive(def);
      WalkMoves(b, at, def, n);
      if n > 1 {
        WalkReads(b, def, at, [], []);
        StructElementsAreArray(b, at + def.bytesize, def, n - 1);
      }
    }
  }

  lemma WalkMoves(b: seq<byte>, at: nat, def: StructDef, n: nat)
    requires StructOk(def) && n > 0 && def.bytesize > 0 && at + n * def.bytesize <= |b|
    ensures StructWalk(b, at, def).end > at && (n > 1 ==> at + def.bytesize < |b|)
  {
    MulAtLeast(def.bytesize, n);
    if n > 1 {
      MulAtLeast(def.bytesize, n - 1);
      assert (n - 1) * def.bytesize + def.bytesize == n * def.bytesize;
    }
    StructFacts(b, at, def);
  }

  // ---------------------------------------------------------------- padding at the end of the binary

  /** The last item is padding up to the end, and is all that the walk leaves out. */
  predicate ReadsButLast(w: Walk, items: seq<Item>, end: nat) {
    && |items| > 0 && items[|items| - 1].Blank?
    && var last := items[|items| - 1];
       last.offset + last.length == end && Reads(w, items[..|items| - 1], last.offset)
  }

  /** A struct that ends in padding where the binary ends: the reader stops in front of that padding. */
  lemma {:induction false} WalkFallsShort(b: seq<byte>, def: StructDef, off: nat, path: Path, ids: seq<int>)
    requires |b| >= MIN_BUFFER_SIZE && StructOk(def) && LaidOut(def) && off + def.bytesize == |b| && EndsInPadding(def)
    ensures ReadsButLast(StructWalk(b, off, def), Items(def, off, path, ids), |b|)
    decreases def, 0
  {
    FieldsFallShort(b, def.fields, off, 0, def.minalign, 0, path, ids);
  }

  ghost predicate FieldsReadButLast(b: seq<byte>, fields: seq<StructField>, off: nat, k: nat, path: Path,
                                    ids: seq<int>)
  {
    ReadsButLast(FieldsWalk(b, off, fields), FieldsItems(fields, off, k, path, ids), |b|)
  }

  lemma {:induction false} FieldsFallShort(b: seq<byte>, fields: seq<StructField>, off: nat, at: nat, align: nat,
                                           k: nat,
                                           path: Path, ids: seq<int>)
    requires |b| >= MIN_BUFFER_SIZE && (forall f :: f in fields ==> FieldTypeOk(f.ty))
             && FieldsLaidOut(fields, at, align)
    requires off + FieldsSize(fields) == |b| && FieldsEndInPadding(fields)
    ensures FieldsReadButLast(b, fields, off, k, path, ids)
    decreases fields, 0, 1
  {
    if |fields| == 1 {
      LastFieldFallsShort(b, fields, off, at, align, k, path, ids);
    } else {
      var f, rest := fields[0], fields[1..];
      assert f.ty < f;
      TypePositive(rest[0].ty, at + FieldSize(f.ty) + f.padding, align);
      TypeReads(b, f.ty, off, at, align, path + [k], ids);
      FieldsFallShort(b, rest, off + FieldSize(f.ty) + f.padding, at + FieldSize(f.ty) + f.padding, align, k + 1,
                      path, ids);
      FieldThenShortRest(b, fields, off, k, path, ids);
    }
  }

  lemma FieldThenShortRest(b: seq<byte>, fields: seq<StructField>, off: nat, k: nat, path: Path, ids: seq<int>)
    requires fields != []
    requires var f, next := fields[0], off + FieldSize(fields[0].ty);
             && Reads(FieldWalk(b, off, f.ty), TypeItems(f.ty, off, path + [k], ids), next)
             && (f.padding > 0 ==> IsValidOffset(b, next + f.padding))
             && FieldsReadButLast(b, fields[1..], next + f.padding, k + 1, path, ids)
    ensures FieldsReadButLast(b, fields, off, k, path, ids)
  {
    var f, next := fields[0], off + FieldSize(fields[0].ty);
    var w, p := FieldWalk(b, off, f.ty), PaddingWalk(b, next, f.padding);
    var r := FieldsWalk(b, next + f.padding, fields[1..]);
    var s, t, u := TypeItems(f.ty, off, path + [k], ids), Blanks(next, f.padding),
                   FieldsItems(fields[1..], next + f.padding, k + 1, path, ids);
    LastInOrder(w, p, r, s, t, u, |b|);
    FieldsInOrder(b, fields, off, k, path, ids);
    ButLastIs(b, fields, off, k, path, ids, Walk(w.regions + p.regions + r.regions, r.end), s + t + u);
  }

  lemma ButLastIs(b: seq<byte>, fields: seq<StructField>, off: nat, k: nat, path: Path, ids: seq<int>, w: Walk,
                  items: seq<Item>)
    requires w == FieldsWalk(b, off, fields) && items == FieldsItems(fields, off, k, path, ids)
             && ReadsButLast(w, items, |b|)
    ensures FieldsReadButLast(b, fields, off, k, path, ids)
  {
  }

  /** The last field: its own padding is left out, or if it has none that which its type ends in. */
  lemma {:induction false} LastFieldFallsShort(b: seq<byte>, fields: seq<StructField>, off: nat, at: nat, align: nat,
                                               k: nat,
                                               path: Path, ids: seq<int>)
    requires |b| >= MIN_BUFFER_SIZE && |fields| == 1 && FieldTypeOk(fields[0].ty) && FieldsLaidOut(fields, at, align)
    requires off + FieldsSize(fields) == |b| && FieldsEndInPadding(fields)
    ensures FieldsReadButLast(b, fields, off, k, path, ids)
    decreases fields, 0, 0
  {
    var f := fields[0];
    assert f.ty < f && fields[1..] == [];
    var items, w := TypeItems(f.ty, off, path + [k], ids), FieldWalk(b, off, f.ty);
    if f.padding == 0 {
      TypeFallsShort(b, f.ty, off, at, align, path + [k], ids);
      NothingBehind(items, w.regions);
    } else {
      TypeReads(b, f.ty, off, at, align, path + [k], ids);
      assert FieldsItems([], off + FieldSize(f.ty) + f.padding, k + 1, path, ids) == [];
      LastBlank(w, items, Blank(off + FieldSize(f.ty), f.padding));
    }
  }

  lemma NothingBehind(items: seq<Item>, regions: seq<Region>)
    ensures items + [] + [] == items && regions + [] + [] == regions
  {
  }

  lemma LastInOrder(w: Walk, p: Walk, r: Walk, s: seq<Item>, t: seq<Item>, u: seq<Item>, end: nat)
    requires Reads(w, s, w.end) && Reads(p, t, p.end) && ReadsButLast(r, u, end)
    ensures ReadsButLast(Walk(w.regions + p.regions + r.regions, r.end), s + t + u, end)
  {
    ReadsInOrder(w, p, r, s, t, u[..|u| - 1]);
    assert (s + t + u)[..|s + t + u| - 1] == s + t + u[..|u| - 1];
  }

  lemma LastBlank(w: Walk, s: seq<Item>, blank: Item)
    requires Reads(w, s, w.end) && blank.Blank? && blank.offset == w.end
    ensures ReadsButLast(Walk(w.regions + [] + [], w.end), s + [blank] + [], blank.offset + blank.length)
  {
    assert (s + [blank] + [])[..|s|] == s;
  }

  lemma {:induction false} TypeFallsShort(b: seq<byte>, ty: StructFieldType, off: nat, at: nat, align: nat, path: Path,
                                          ids: seq<int>)
    requires |b| >= MIN_BUFFER_SIZE && FieldTypeOk(ty) && TypeLaidOut(ty, at, align)
    requires off + FieldSize(ty) == |b| && TypeEndsInPadding(ty)
    ensures ReadsButLast(FieldWalk(b, off, ty), TypeItems(ty, off, path, ids), |b|)
    decreases ty, 0
  {
    match ty
    case NestedField(def) => WalkFallsShort(b, def, off, path, ids);
    case StructArray(def, n) => StructsFallShort(b, def, n, off, path, ids);
  }

  lemma {:induction false} StructsFallShort(b: seq<byte>, def: StructDef, n: nat, off: nat, path: Path, ids: seq<int>)
    requires |b| >= MIN_BUFFER_SIZE && StructOk(def) && LaidOut(def) && EndsInPadding(def)
    requires n > 0 && off + n * def.bytesize == |b|
    ensures ReadsButLast(StructArrayWalk(b, off, def, n), StructsItems(def, n, off, path, ids), |b|)
    decreases def, 1
  {
    var last := off + (n - 1) * def.bytesize;
    assert last + def.bytesize == off + n * def.bytesize;
    SizePositive(def);
    StructsRead(b, def, n - 1, off, path, ids);
    StructArraySnoc(b, off, def, n);
    WalkFallsShort(b, def, last, path, ids + [n - 1]);
    LastBehind(StructArrayWalk(b, off, def, n - 1), StructWalk(b, last, def), StructsItems(def, n - 1, off, path, ids),
               Items(def, last, path, ids + [n - 1]), |b|);
  }

  lemma LastBehind(w: Walk, r: Walk, s: seq<Item>, u: seq<Item>, end: nat)
    requires Reads(w, s, w.end) && ReadsButLast(r, u, end)
    ensures ReadsButLast(Walk(w.regions + r.regions, r.end), s + u, end)
  {
    RegionsConcat(s, u[..|u| - 1]);
    assert (s + u)[..|s + u| - 1] == s + u[..|u| - 1];
  }

  /**
   * Exactly when a vector of structs in the binary gives every field of every struct, and all padding, at its offset:
   * unless the structs end in padding at the binary's end.
   */
  lemma VectorOfStructs(b: seq<byte>, at: nat, def: StructDef, n: nat)
    requires |b| >= MIN_BUFFER_SIZE && StructOk(def) && LaidOut(def) && at + n * def.bytesize <= |b|
    ensures StructElements(b, at, def, n) == RegionsOf(StructsItems(def, n, at, [], []))
            <==> n == 0 || at + n * def.bytesize < |b| || !EndsInPadding(def)
  {
    StructElementsAreArray(b, at, def, n);
    if n == 0 || at + n * def.bytesize < |b| || !EndsInPadding(def) {
      StructsRead(b, def, n, at, [], []);
    } else {
      StructsFallShort(b, def, n, at, [], []);
    }
  }

  /**
   * Exactly when the reader finds every field and all padding: unless the struct ends in padding at the binary's end.
   */
  lemma ReadsIff(b: seq<byte>, def: StructDef, off: nat, path: Path, ids: seq<int>)
    requires |b| >= MIN_BUFFER_SIZE && StructOk(def) && LaidOut(def) && off + def.bytesize <= |b|
    ensures Reads(StructWalk(b, off, def), Items(def, off, path, ids), off + def.bytesize)
            <==> off + def.bytesize < |b| || !EndsInPadding(def)
  {
    if Fits(b, off, def.bytesize, EndsInPadding(def)) {
      WalkReads(b, def, off, path, ids);
    } else {
      WalkFallsShort(b, def, off, path, ids);
    }
  }

  // ---------------------------------------------------------------- writer and reader agree

  lemma HeldIsRead(b: seq<byte>, item: Item, args: Args)
    requires |b| >= MIN_BUFFER_SIZE && Holds(b, item, args) && item.Leaf?
    ensures Read(b, item.offset, TypeSize(item.base)) == Some(args(item.path, item.ids) % Pow256(TypeSize(item.base)))
  {
    LERoundTrip(args(item.path, item.ids), TypeSize(item.base));
  }

  lemma OffsetBehind(fields: seq<StructField>, i: nat)
    requires 0 < i < |fields|
    ensures FieldsSize(fields[..i]) == FieldSize(fields[0].ty) + fields[0].padding + FieldsSize(fields[1..][..i - 1])
  {
    assert fields[..i][1..] == fields[1..][..i - 1];
  }

  lemma Reassociate(a: seq<Item>, b: seq<Item>, c: seq<Item>, d: seq<Item>)
    ensures a + (b + c + d) == (a + b) + c + d
  {
  }

  /** The items of each field are at the offset of the field: behind the fields before it and their padding. */
  lemma {:induction false} FieldAtOffset(fields: seq<StructField>, off: nat, k: nat, path: Path, ids: seq<int>, i: nat)
    returns (before: seq<Item>, behind: seq<Item>)
    requires i < |fields|
    ensures FieldsItems(fields, off, k, path, ids)
            == before + TypeItems(fields[i].ty, off + FieldsSize(fields[..i]), path + [k + i], ids) + behind
    decreases i
  {
    var f := fields[0];
    var size := FieldSize(f.ty);
    var first := TypeItems(f.ty, off, path + [k], ids);
    var rest := FieldsItems(fields[1..], off + size + f.padding, k + 1, path, ids);
    if i == 0 {
      before, behind := [], Blanks(off + size, f.padding) + rest;
      assert fields[..0] == [];
    } else {
      before, behind := FieldAtOffset(fields[1..], off + size + f.padding, k + 1, path, ids, i - 1);
      OffsetBehind(fields, i);
      Reassociate(first + Blanks(off + size, f.padding), before,
                  TypeItems(fields[i].ty, off + FieldsSize(fields[..i]), path + [k + i], ids), behind);
      before := first + Blanks(off + size, f.padding) + before;
    }
  }

  // ---------------------------------------------------------------- where the arguments are

  /**
   * Where in the struct the argument is that belongs to the way and the indices, and of what type it is: each field
   * lies behind the fields in front of it and their padding, each element of an array behind those in front of it.
   */
  function ArgumentAt(def: StructDef, path: Path, ids: seq<int>): Option<(nat, BaseType)>
    decreases |path|, 0
  {
    if path == [] || path[0] >= |def.fields| then None
    else Behind(FieldsSize(def.fields[..path[0]]), ArgumentIn(def.fields[path[0]].ty, path[1..], ids))
  }

  function ArgumentIn(ty: StructFieldType, path: Path, ids: seq<int>): Option<(nat, BaseType)>
    decreases |path|, 1
  {
    match ty
    case ScalarField(base) => if path == [] && ids == [] then Some((0, base)) else None
    case NestedField(def) => ArgumentAt(def, path, ids)
    case ScalarArray(base, n) =>
      if path == [] && |ids| == 1 && 0 <= ids[0] < n then Some((ids[0] * TypeSize(base), base)) else None
    case StructArray(def, n) =>
      if ids != [] && 0 <= ids[0] < n then Behind(ids[0] * def.bytesize, ArgumentAt(def, path, ids[1..])) else None
  }

  function Behind(at: nat, argument: Option<(nat, BaseType)>): Option<(nat, BaseType)> {
    match argument
    case None => None
    case Some((offset, base)) => Some((at + offset, base))
  }

  lemma {:induction false} ScalarAt(base: BaseType, n: nat, off: nat, path: Path, ids: seq<int>, i: nat)
    requires i < n
    ensures Leaf(off + i * TypeSize(base), base, path, ids + [i]) in ScalarsItems(base, n, off, path, ids)
    decreases n
  {
    if i < n - 1 {
      ScalarAt(base, n - 1, off, path, ids, i);
    }
  }

  lemma {:induction false} StructAt(def: StructDef, n: nat, off: nat, path: Path, ids: seq<int>, i: nat, item: Item)
    requires i < n && item in Items(def, off + i * def.bytesize, path, ids + [i])
    ensures item in StructsItems(def, n, off, path, ids)
    decreases n
  {
    if i < n - 1 {
      StructAt(def, n - 1, off, path, ids, i, item);
    }
  }

  /** The items of a field are among those of the struct. */
  lemma FieldItem(def: StructDef, off: nat, path: Path, ids: seq<int>, k: nat, item: Item)
    requires k < |def.fields|
    requires item in TypeItems(def.fields[k].ty, off + FieldsSize(def.fields[..k]), path + [k], ids)
    ensures item in Items(def, off, path, ids)
  {
    var before, behind := FieldAtOffset(def.fields, off, 0, path, ids, k);
  }

  /** Every argument of a struct is at its place in it. */
  lemma {:induction false} ArgumentIsAt(def: StructDef, off: nat, path: Path, ids: seq<int>, more: Path,
                                        indices: seq<int>)
    requires ArgumentAt(def, more, indices).Some?
    ensures var (at, base) := ArgumentAt(def, more, indices).value;
            Leaf(off + at, base, path + more, ids + indices) in Items(def, off, path, ids)
    decreases |more|, 0
  {
    var k := more[0];
    var (at, base) := ArgumentAt(def, more, indices).value;
    assert path + more == path + [k] + more[1..];
    ArgumentIsIn(def.fields[k].ty, off + FieldsSize(def.fields[..k]), path + [k], ids, more[1..], indices);
    FieldItem(def, off, path, ids, k, Leaf(off + at, base, path + more, ids + indices));
  }

  lemma {:induction false} ArgumentIsIn(ty: StructFieldType, off: nat, path: Path, ids: seq<int>, more: Path,
                                        indices: seq<int>)
    requires ArgumentIn(ty, more, indices).Some?
    ensures var (at, base) := ArgumentIn(ty, more, indices).value;
            Leaf(off + at, base, path + more, ids + indices) in TypeItems(ty, off, path, ids)
    decreases |more|, 1
  {
    var (at, scalar) := ArgumentIn(ty, more, indices).value;
    match ty
    case ScalarField(base) => assert path + more == path && ids + indices == ids;
    case NestedField(def) => ArgumentIsAt(def, off, path, ids, more, indices);
    case ScalarArray(base, n) =>
      assert path + more == path && indices == [indices[0]];
      ScalarAt(base, n, off, path, ids, indices[0]);
    case StructArray(def, n) =>
      assert ids + indices == ids + [indices[0]] + indices[1..];
      ArgumentIsAt(def, off + indices[0] * def.bytesize, path, ids + [indices[0]], more, indices[1..]);
      StructAt(def, n, off, path, ids, indices[0], Leaf(off + at, scalar, path + more, ids + indices));
  }

  /** The argument, if there is one, is at its place, with its own value and as wide as its type, and has a region. */
  predicate ArgumentFound(b: seq<byte>, def: StructDef, off: nat, args: Args, path: Path, ids: seq<int>) {
    match ArgumentAt(def, path, ids)
    case None => true
    case Some((at, base)) =>
      && Read(b, off + at, TypeSize(base)) == Some(args(path, ids) % Pow256(TypeSize(base)))
      && Plain(off + at, TypeSize(base), RegionTypeOf(base), Ok) in StructWalk(b, off, def).regions
  }

  lemma ArgumentRead(b: seq<byte>, def: StructDef, off: nat, args: Args, path: Path, ids: seq<int>)
    requires |b| >= MIN_BUFFER_SIZE && AllHold(b, Items(def, off, [], []), args)
    requires StructWalk(b, off, def).regions == RegionsOf(Items(def, off, [], []))
    requires ArgumentAt(def, path, ids).Some?
    ensures ArgumentFound(b, def, off, args, path, ids)
  {
    var (at, base) := ArgumentAt(def, path, ids).value;
    ArgumentIsAt(def, off, [], [], path, ids);
    assert [] + path == path && [] + ids == ids;
    ItemRead(b, Items(def, off, [], []), Leaf(off + at, base, path, ids), args);
  }

  lemma ItemRead(b: seq<byte>, items: seq<Item>, item: Item, args: Args)
    requires |b| >= MIN_BUFFER_SIZE && AllHold(b, items, args) && item in items && item.Leaf?
    ensures Read(b, item.offset, TypeSize(item.base)) == Some(args(item.path, item.ids) % Pow256(TypeSize(item.base)))
    ensures RegionOf(item) in RegionsOf(items)
  {
    var i :| 0 <= i < |items| && items[i] == item;
    HeldIsRead(b, item, args);
    assert RegionsOf(items)[i] == RegionOf(item);
  }

  /**
   * Running the emitted code in front of any bytes puts the struct, padded only to align it, before them; and reading
   * forward over the result, with anything in front, gives every argument at its own place with its value, and blank
   * padding, in order, and nothing else.
   */
  lemma WriterAndReaderAgree(def: StructDef, args: Args, buf: seq<byte>, front: seq<byte>)
    requires StructOk(def) && LaidOut(def)
    requires |front| + def.bytesize + |Prepped(def.minalign, def.bytesize, buf)| >= MIN_BUFFER_SIZE
    requires Prepped(def.minalign, def.bytesize, buf) != [] || !EndsInPadding(def)
    ensures var out := Exec(Body(def, [], 0), map[], args, buf);
            var b, off, items := front + out, |front|, Items(def, |front|, [], []);
            && |out| == def.bytesize + |Prepped(def.minalign, def.bytesize, buf)|
            && Reads(StructWalk(b, off, def), items, off + def.bytesize)
            && AllHold(b, items, args)
            && (forall i :: 0 <= i < |items| && items[i].Leaf? ==>
                  Read(b, items[i].offset, TypeSize(items[i].base))
                  == Some(args(items[i].path, items[i].ids) % Pow256(TypeSize(items[i].base))))
            && forall path, ids :: ArgumentFound(b, def, off, args, path, ids)
  {
    var out := Exec(Body(def, [], 0), map[], args, buf);
    var b, off, items := front + out, |front|, Items(def, |front|, [], []);
    ExecBody(def, [], [], map[], args, buf);
    ImageSize(def, [], [], args);
    assert b[off..off + def.bytesize] == Image(def, [], [], args);
    ItemsHold(b, def, off, [], [], args);
    WalkReads(b, def, off, [], []);
    forall i | 0 <= i < |items| && items[i].Leaf?
      ensures Read(b, items[i].offset, TypeSize(items[i].base))
              == Some(args(items[i].path, items[i].ids) % Pow256(TypeSize(items[i].base)))
    {
      HeldIsRead(b, items[i], args);
    }
    forall path, ids
      ensures ArgumentFound(b, def, off, args, path, ids)
    {
      if ArgumentAt(def, path, ids).Some? {
        ArgumentRead(b, def, off, args, path, ids);
      }
    }
  }
}
