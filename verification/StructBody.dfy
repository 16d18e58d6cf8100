/** The emitter of the code that builds a struct, and what that code does on a builder that writes back to front. */
module StructBodies {
  import opened Bytes
  import opened Schema

  /** An argument is known by the way to its field: the positions of the fields it is nested in, and its own. */
  type Path = seq<nat>

  /** The statements of the emitted code; levels are the loop variables that index the argument of a Put. */
  datatype Stmt =
    | Prep(align: nat, additional: nat)
    | Pad(n: nat)
    | Put(size: nat, arg: Path, levels: seq<nat>)
    | For(level: nat, count: nat, body: seq<Stmt>)

  // ---------------------------------------------------------------- emission

  function Levels(n: nat): seq<nat> {
    seq(n, i => i)
  }

  /** The code for a struct, with index enclosing loops: fields back to front, each behind its padding. */
  function Body(def: StructDef, path: Path, index: nat): seq<Stmt>
    decreases def, 0
  {
    [Prep(def.minalign, def.bytesize)] + FieldsBody(def.fields, 0, path, index)
  }

  function FieldsBody(fields: seq<StructField>, k: nat, path: Path, index: nat): seq<Stmt>
    decreases fields, 0
  {
    if fields == [] then []
    else
      var f := fields[0];
      assert f.ty < f;
      FieldsBody(fields[1..], k + 1, path, index) + PaddingBody(f.padding) + TypeBody(f.ty, path + [k], index)
  }

  function PaddingBody(padding: nat): seq<Stmt> {
    if padding > 0 then [Pad(padding)] else []
  }

  function TypeBody(ty: StructFieldType, path: Path, index: nat): seq<Stmt>
    decreases ty, 0
  {
    match ty
    case ScalarField(base) => [Put(TypeSize(base), path, Levels(index))]
    case NestedField(def) => Body(def, path, index)
    case ScalarArray(base, n) => [For(index, n, [Put(TypeSize(base), path, Levels(index + 1))])]
    case StructArray(def, n) => [For(index, n, Body(def, path, index + 1))]
  }

  /**
   * Appends the code for a struct. inArray says whether an array has been seen on the way; only then are the loop
   * variables of an index written down.
   */
  method GenStructBody(code: seq<Stmt>, def: StructDef, path: Path, index: nat, inArray: bool) returns (out: seq<Stmt>)
    requires index > 0 ==> inArray
    ensures out == code + Body(def, path, index)
    decreases def
  {
    out := code + [Prep(def.minalign, def.bytesize)];
    var inArr := inArray;
    var i: nat := |def.fields|;
    while i > 0
      invariant i <= |def.fields| && (index > 0 ==> inArr)
      invariant out == code + [Prep(def.minalign, def.bytesize)] + FieldsBody(def.fields[i..], i, path, index)
    {
      i := i - 1;
      var f := def.fields[i];
      assert f in def.fields && f.ty < f;
      assert def.fields[i..][1..] == def.fields[i + 1..];
      if f.padding > 0 {
        out := out + [Pad(f.padding)];
      }
      out, inArr := GenField(out, f.ty, path + [i], index, inArr);
    }
    assert def.fields[0..] == def.fields;
  }

  method GenField(code: seq<Stmt>, ty: StructFieldType, path: Path, index: nat, inArray: bool)
    returns (out: seq<Stmt>, inArr: bool)
    requires index > 0 ==> inArray
    ensures out == code + TypeBody(ty, path, index) && (inArray ==> inArr)
    decreases ty
  {
    inArr := inArray;
    match ty {
      case NestedField(def) =>
        out := GenStructBody(code, def, path, index, inArr);
      case ScalarField(base) =>
        out := code + [GenPut(base, path, index, inArr)];
      case ScalarArray(base, n) =>
        inArr := true;
        out := code + [For(index, n, [GenPut(base, path, index + 1, inArr)])];
      case StructArray(def, n) =>
        inArr := true;
        var body := GenStructBody([], def, path, index + 1, inArr);
        assert body == Body(def, path, index + 1);
        out := code + [For(index, n, body)];
    }
  }

  /** A Put whose argument is indexed by as many loop variables as there are loops around it: none is left out. */
  function GenPut(base: BaseType, path: Path, count: nat, inArray: bool): (s: Stmt)
    requires count > 0 ==> inArray
    ensures s == Put(TypeSize(base), path, Levels(count))
  {
    assert Levels(0) == [];
    Put(TypeSize(base), path, if inArray then Levels(count) else [])
  }

  // ---------------------------------------------------------------- execution

  /** The values of the arguments, by the place of the field and the indices in the arrays around it. */
  type Args = (Path, seq<int>) -> nat

  function Zeros(n: nat): (z: seq<byte>)
    ensures |z| == n
  {
    seq(n, i => 0)
  }

  /** How many bytes to pad so that size is a multiple of align. */
  function PadTo(align: nat, size: nat): nat {
    if align == 0 then 0 else (0 - size) % align
  }

  function Prepped(align: nat, additional: nat, buf: seq<byte>): seq<byte> {
    Zeros(PadTo(align, |buf| + additional)) + buf
  }

  /** Runs the code on a builder that has written buf; new bytes go in front. Loops count down to 1. */
  function Exec(ss: seq<Stmt>, env: map<nat, nat>, args: Args, buf: seq<byte>): seq<byte>
    decreases ss, 0
  {
    if ss == [] then buf else Exec(ss[1..], env, args, ExecOne(ss[0], env, args, buf))
  }

  function ExecOne(s: Stmt, env: map<nat, nat>, args: Args, buf: seq<byte>): seq<byte>
    decreases s, 0
  {
    match s
    case Prep(align, additional) => Prepped(align, additional, buf)
    case Pad(n) => Zeros(n) + buf
    case Put(size, arg, levels) =>
      ToLE(args(arg, seq(|levels|, i requires 0 <= i < |levels| => Index(env, levels[i]))), size) + buf
    case For(level, count, body) => ExecFor(level, count, body, env, args, buf)
  }

  function ExecFor(level: nat, i: nat, body: seq<Stmt>, env: map<nat, nat>, args: Args, buf: seq<byte>): seq<byte>
    decreases body, i + 1
  {
    if i == 0 then buf
    else ExecFor(level, i - 1, body, env, args, Exec(body, env[level := i], args, buf))
  }

  /** What the emitted code writes for the loop variable of a level: one less. */
  function Index(env: map<nat, nat>, level: nat): int {
    if level in env then env[level] as int - 1 else -1
  }

  lemma {:induction false} ExecConcat(s: seq<Stmt>, t: seq<Stmt>, env: map<nat, nat>, args: Args, buf: seq<byte>)
    ensures Exec(s + t, env, args, buf) == Exec(t, env, args, Exec(s, env, args, buf))
    decreases s
  {
    if s == [] {
      assert s + t == t;
    } else {
      ExecConcat(s[1..], t, env, args, ExecOne(s[0], env, args, buf));
      assert (s + t)[1..] == s[1..] + t;
    }
  }

  lemma ExecSingle(s: Stmt, env: map<nat, nat>, args: Args, buf: seq<byte>)
    ensures Exec([s], env, args, buf) == ExecOne(s, env, args, buf)
  {
    assert [s][1..] == [];
  }

  // ---------------------------------------------------------------- layout

  function FieldSize(ty: StructFieldType): nat {
    match ty
    case ScalarField(base) => TypeSize(base)
    case NestedField(def) => def.bytesize
    case ScalarArray(base, n) => n * TypeSize(base)
    case StructArray(def, n) => n * def.bytesize
  }

  function FieldsSize(fields: seq<StructField>): nat {
    if fields == [] then 0 else FieldSize(fields[0].ty) + fields[0].padding + FieldsSize(fields[1..])
  }

  /**
   * A struct laid out as the schema compiler does it: aligned to a power of two, as large as its fields and their
   * padding, a multiple of its alignment, and with nested structs no more strictly aligned and at multiples of theirs.
   */
  predicate LaidOut(def: StructDef)
    decreases def, 0
  {
    && IsPow2(def.minalign) && def.bytesize == FieldsSize(def.fields) && def.bytesize % def.minalign == 0
    && FieldsLaidOut(def.fields, 0, def.minalign)
  }

  predicate FieldsLaidOut(fields: seq<StructField>, off: nat, align: nat)
    decreases fields, 0
  {
    fields == [] ||
    (var f := fields[0];
     assert f.ty < f;
     TypeLaidOut(f.ty, off, align) && FieldsLaidOut(fields[1..], off + FieldSize(f.ty) + f.padding, align))
  }

  predicate TypeLaidOut(ty: StructFieldType, off: nat, align: nat)
    decreases ty, 0
  {
    match ty
    case NestedField(def) => LaidOut(def) && def.minalign <= align && off % def.minalign == 0
    case StructArray(def, _) => LaidOut(def) && def.minalign <= align && off % def.minalign == 0
    case _ => true
  }

  // ---------------------------------------------------------------- the bytes of a struct, front to back

  function Image(def: StructDef, path: Path, ids: seq<int>, args: Args): seq<byte>
    decreases def, 0
  {
    FieldsImage(def.fields, 0, path, ids, args)
  }

  function FieldsImage(fields: seq<StructField>, k: nat, path: Path, ids: seq<int>, args: Args): seq<byte>
    decreases fields, 0
  {
    if fields == [] then []
    else
      var f := fields[0];
      assert f.ty < f;
      TypeImage(f.ty, path + [k], ids, args) + Zeros(f.padding) + FieldsImage(fields[1..], k + 1, path, ids, args)
  }

  function TypeImage(ty: StructFieldType, path: Path, ids: seq<int>, args: Args): seq<byte>
    decreases ty, 0
  {
    match ty
    case ScalarField(base) => ToLE(args(path, ids), TypeSize(base))
    case NestedField(def) => Image(def, path, ids, args)
    case ScalarArray(base, n) => ScalarsImage(base, n, path, ids, args)
    case StructArray(def, n) => StructsImage(def, n, path, ids, args)
  }

  function ScalarsImage(base: BaseType, n: nat, path: Path, ids: seq<int>, args: Args): seq<byte> {
    if n == 0 then [] else ScalarsImage(base, n - 1, path, ids, args) + ToLE(args(path, ids + [n - 1]), TypeSize(base))
  }

  function StructsImage(def: StructDef, n: nat, path: Path, ids: seq<int>, args: Args): seq<byte>
    decreases def, n + 1
  {
    if n == 0 then [] else StructsImage(def, n - 1, path, ids, args) + Image(def, path, ids + [n - 1], args)
  }

  lemma {:induction false} ImageSize(def: StructDef, path: Path, ids: seq<int>, args: Args)
    requires LaidOut(def)
    ensures |Image(def, path, ids, args)| == def.bytesize
    decreases def, 0
  {
    FieldsImageSize(def.fields, 0, def.minalign, 0, path, ids, args);
  }

  lemma {:induction false} FieldsImageSize(fields: seq<StructField>, off: nat, align: nat, k: nat, path: Path,
                                           ids: seq<int>, args: Args)
    requires FieldsLaidOut(fields, off, align)
    ensures |FieldsImage(fields, k, path, ids, args)| == FieldsSize(fields)
    decreases fields, 0
  {
    if fields != [] {
      var f := fields[0];
      assert f.ty < f;
      TypeImageSize(f.ty, off, align, path + [k], ids, args);
      FieldsImageSize(fields[1..], off + FieldSize(f.ty) + f.padding, align, k + 1, path, ids, args);
    }
  }

  lemma {:induction false} TypeImageSize(ty: StructFieldType, off: nat, align: nat, path: Path, ids: seq<int>,
                                         args: Args)
    requires TypeLaidOut(ty, off, align)
    ensures |TypeImage(ty, path, ids, args)| == FieldSize(ty)
    decreases ty, 0
  {
    match ty
    case ScalarField(base) =>
    case NestedField(def) => ImageSize(def, path, ids, args);
    case ScalarArray(base, n) => ScalarsImageSize(base, n, path, ids, args);
    case StructArray(def, n) => StructsImageSize(def, n, path, ids, args);
  }

  lemma {:induction false} ScalarsImageSize(base: BaseType, n: nat, path: Path, ids: seq<int>, args: Args)
    ensures |ScalarsImage(base, n, path, ids, args)| == n * TypeSize(base)
  {
    if n > 0 {
      ScalarsImageSize(base, n - 1, path, ids, args);
    }
  }

  lemma {:induction false} StructsImageSize(def: StructDef, n: nat, path: Path, ids: seq<int>, args: Args)
    requires LaidOut(def)
    ensures |StructsImage(def, n, path, ids, args)| == n * def.bytesize
    decreases def, n + 1
  {
    if n > 0 {
      StructsImageSize(def, n - 1, path, ids, args);
      ImageSize(def, path, ids + [n - 1], args);
      assert n * def.bytesize == (n - 1) * def.bytesize + def.bytesize;
    }
  }

  // ---------------------------------------------------------------- what the emitted code writes

  /** The loop variables of the levels around are one more than the indices. */
  predicate EnvOk(env: map<nat, nat>, ids: seq<int>) {
    forall i :: 0 <= i < |ids| ==> i in env && env[i] as int == ids[i] + 1
  }

  lemma ExecPut(env: map<nat, nat>, ids: seq<int>, base: BaseType, path: Path, args: Args, buf: seq<byte>)
    requires EnvOk(env, ids)
    ensures Exec([Put(TypeSize(base), path, Levels(|ids|))], env, args, buf)
            == ToLE(args(path, ids), TypeSize(base)) + buf
  {
    var s := Put(TypeSize(base), path, Levels(|ids|));
    ExecSingle(s, env, args, buf);
    assert seq(|s.levels|, i requires 0 <= i < |s.levels| => Index(env, s.levels[i])) == ids;
  }

  lemma {:induction false} Pow2Divides(a: nat, b: nat)
    requires IsPow2(a) && IsPow2(b) && a <= b
    ensures b % a == 0
    decreases b
  {
    if a == b {
      DivModUnique(b, a, 1, 0);
    } else {
      var h := b / 2;
      assert b == 2 * h;
      Pow2Gap(a, b);
      Pow2Divides(a, h);
      Multiple(h, a);
    }
  }

  lemma Multiple(h: nat, a: nat)
    requires a > 0 && h % a == 0
    ensures (2 * h) % a == 0
  {
    var q := h / a;
    assert 2 * h == a * (2 * q) + 0;
    DivModUnique(2 * h, a, 2 * q, 0);
  }

  /** What is a multiple of the larger alignment, less what is a multiple of the smaller, is one of the smaller. */
  lemma AlignedWithin(x: nat, off: nat, align: nat, minalign: nat)
    requires IsPow2(align) && IsPow2(minalign) && minalign <= align
    requires (x + off) % align == 0 && off % minalign == 0
    ensures x % minalign == 0
  {
    Pow2Divides(minalign, align);
    Exact(x + off, align);
    Exact(align, minalign);
    Exact(off, minalign);
    DividesWithin(x, off, align, minalign, align / minalign, (x + off) / align, off / minalign);
  }

  lemma Exact(a: nat, b: nat)
    requires b > 0 && a % b == 0
    ensures a == b * (a / b)
  {
  }

  lemma DividesWithin(x: nat, off: nat, align: nat, m: nat, d: nat, q: nat, e: nat)
    requires m > 0 && align == m * d && x + off == align * q && off == m * e
    ensures x % m == 0
  {
    assert (m * d) * q == m * (d * q);
    assert m * (d * q) - m * e == m * (d * q - e);
    DivModUnique(x, m, d * q - e, 0);
  }

  lemma PadToAligns(align: nat, size: nat)
    requires align > 0
    ensures PadTo(align, size) < align && (PadTo(align, size) + size) % align == 0
    ensures size % align == 0 ==> PadTo(align, size) == 0
  {
    var p, q := PadTo(align, size), (0 - size) / align;
    assert p + size == align * (-q) + 0;
    DivModUnique(p + size, align, -q, 0);
    if size % align == 0 {
      DivModUnique(0 - size, align, -(size / align), 0);
    }
  }

  /** A Prep where the struct is aligned already adds nothing. */
  lemma NoPadding(align: nat, additional: nat, buf: seq<byte>)
    requires align > 0 && (|buf| + additional) % align == 0
    ensures Prepped(align, additional, buf) == buf
  {
    PadToAligns(align, |buf| + additional);
  }

  lemma PreppedAligned(align: nat, additional: nat, buf: seq<byte>)
    requires align > 0
    ensures (|Prepped(align, additional, buf)| + additional) % align == 0
  {
    PadToAligns(align, |buf| + additional);
    assert |Prepped(align, additional, buf)| + additional == PadTo(align, |buf| + additional) + (|buf| + additional);
  }

  /**
   * The emitted code of a struct writes its image in front of what has been written, and in between the padding that
   * aligns it; that padding is all that any Prep adds.
   */
  lemma {:induction false} ExecBody(def: StructDef, path: Path, ids: seq<int>, env: map<nat, nat>, args: Args,
                                    buf: seq<byte>)
    requires LaidOut(def) && EnvOk(env, ids)
    ensures Exec(Body(def, path, |ids|), env, args, buf)
            == Image(def, path, ids, args) + Prepped(def.minalign, def.bytesize, buf)
    decreases def, 0
  {
    var padded := Prepped(def.minalign, def.bytesize, buf);
    PreppedAligned(def.minalign, def.bytesize, buf);
    var prep := Prep(def.minalign, def.bytesize);
    ExecConcat([prep], FieldsBody(def.fields, 0, path, |ids|), env, args, buf);
    ExecSingle(prep, env, args, buf);
    ExecFields(def.fields, 0, def.minalign, 0, path, ids, env, args, padded);
  }

  /**
   * Fields at off, of a struct that is aligned once they and what is before them are written, with no further padding.
   */
  lemma {:induction false} ExecFields(fields: seq<StructField>, off: nat, align: nat, k: nat, path: Path, ids: seq<int>,
                                      env: map<nat, nat>, args: Args, buf: seq<byte>)
    requires IsPow2(align) && FieldsLaidOut(fields, off, align) && EnvOk(env, ids)
    requires (|buf| + FieldsSize(fields) + off) % align == 0
    ensures Exec(FieldsBody(fields, k, path, |ids|), env, args, buf) == FieldsImage(fields, k, path, ids, args) + buf
    decreases fields, 0
  {
    if fields != [] {
      var f, rest := fields[0], fields[1..];
      assert f.ty < f;
      var behind := off + FieldSize(f.ty) + f.padding;
      ExecFields(rest, behind, align, k + 1, path, ids, env, args, buf);
      FieldsImageSize(rest, behind, align, k + 1, path, ids, args);
      var done := FieldsImage(rest, k + 1, path, ids, args) + buf;
      var padded := Zeros(f.padding) + done;
      ExecPadding(f.padding, env, args, done);
      ExecType(f.ty, off, align, path + [k], ids, env, args, padded);
      var restBody, padBody := FieldsBody(rest, k + 1, path, |ids|), PaddingBody(f.padding);
      var body := TypeBody(f.ty, path + [k], |ids|);
      ExecConcat(restBody + padBody, body, env, args, buf);
      ExecConcat(restBody, padBody, env, args, buf);
      Regroup(TypeImage(f.ty, path + [k], ids, args), Zeros(f.padding), FieldsImage(rest, k + 1, path, ids, args), buf);
    }
  }

  lemma Regroup(a: seq<byte>, b: seq<byte>, c: seq<byte>, d: seq<byte>)
    ensures a + (b + (c + d)) == (a + b + c) + d
  {
  }

  lemma ExecPadding(padding: nat, env: map<nat, nat>, args: Args, buf: seq<byte>)
    ensures Exec(PaddingBody(padding), env, args, buf) == Zeros(padding) + buf
  {
    if padding > 0 {
      ExecSingle(Pad(padding), env, args, buf);
    }
  }

  lemma {:induction false} ExecType(ty: StructFieldType, off: nat, align: nat, path: Path, ids: seq<int>,
                                    env: map<nat, nat>, args: Args, buf: seq<byte>)
    requires IsPow2(align) && TypeLaidOut(ty, off, align) && EnvOk(env, ids)
    requires (|buf| + FieldSize(ty) + off) % align == 0
    ensures Exec(TypeBody(ty, path, |ids|), env, args, buf) == TypeImage(ty, path, ids, args) + buf
    decreases ty, 0
  {
    match ty
    case ScalarField(base) => ExecPut(env, ids, base, path, args, buf);
    case NestedField(def) =>
      AlignedWithin(|buf| + def.bytesize, off, align, def.minalign);
      ExecBody(def, path, ids, env, args, buf);
      NoPadding(def.minalign, def.bytesize, buf);
    case ScalarArray(base, n) =>
      ExecSingle(TypeBody(ty, path, |ids|)[0], env, args, buf);
      ExecScalars(base, n, path, ids, env, args, buf);
    case StructArray(def, n) =>
      ExecSingle(TypeBody(ty, path, |ids|)[0], env, args, buf);
      AlignedWithin(|buf| + n * def.bytesize, off, align, def.minalign);
      ArrayAligned(|buf|, n, def.bytesize, def.minalign);
      ExecStructs(def, n, path, ids, env, args, buf);
  }

  lemma {:induction false} ArrayAligned(x: nat, n: nat, size: nat, align: nat)
    requires align > 0 && size % align == 0 && (x + n * size) % align == 0
    ensures x % align == 0
  {
    var q, e := (x + n * size) / align, size / align;
    Exact(x + n * size, align);
    Exact(size, align);
    assert n * size == align * (n * e);
    DivModUnique(x, align, q - n * e, 0);
  }

  lemma {:induction false} ExecScalars(base: BaseType, n: nat, path: Path, ids: seq<int>, env: map<nat, nat>,
                                       args: Args,
                                       buf: seq<byte>)
    requires EnvOk(env, ids)
    ensures ExecFor(|ids|, n, [Put(TypeSize(base), path, Levels(|ids| + 1))], env, args, buf)
            == ScalarsImage(base, n, path, ids, args) + buf
    decreases n
  {
    if n > 0 {
      var last := ToLE(args(path, ids + [n - 1]), TypeSize(base));
      ExecPut(env[|ids| := n], ids + [n - 1], base, path, args, buf);
      ExecScalars(base, n - 1, path, ids, env, args, last + buf);
    }
  }

  lemma {:induction false} ExecStructs(def: StructDef, n: nat, path: Path, ids: seq<int>, env: map<nat, nat>,
                                       args: Args,
                                       buf: seq<byte>)
    requires LaidOut(def) && EnvOk(env, ids) && |buf| % def.minalign == 0
    ensures ExecFor(|ids|, n, Body(def, path, |ids| + 1), env, args, buf) == StructsImage(def, n, path, ids, args) + buf
    decreases def, n + 1
  {
    if n > 0 {
      var last := Image(def, path, ids + [n - 1], args);
      SumAligned(|buf|, def.bytesize, def.minalign);
      ExecBody(def, path, ids + [n - 1], env[|ids| := n], args, buf);
      NoPadding(def.minalign, def.bytesize, buf);
      ImageSize(def, path, ids + [n - 1], args);
      ExecStructs(def, n - 1, path, ids, env, args, last + buf);
      var before := StructsImage(def, n - 1, path, ids, args);
      assert before + (last + buf) == before + last + buf;
    }
  }

  lemma SumAligned(a: nat, b: nat, align: nat)
    requires align > 0 && a % align == 0 && b % align == 0
    ensures (a + b) % align == 0 && (b + a) % align == 0
  {
    Exact(a, align);
    Exact(b, align);
    assert a + b == align * (a / align + b / align) + 0;
    DivModUnique(a + b, align, a / align + b / align, 0);
  }
}
