/** The schema a binary is annotated against, and the annotations: regions and sections. */
module Schema {
  import opened Bytes

  /** reflection::BaseType */
  datatype BaseType =
    | UType | Bool | Byte | UByte | Short | UShort | Int | UInt | Long | ULong | Float | Double

  function TypeSize(base: BaseType): (n: nat)
    ensures n in {1, 2, 4, 8}
  {
    match base
    case UType | Bool | Byte | UByte => 1
    case Short | UShort => 2
    case Int | UInt | Float => 4
    case Long | ULong | Double => 8
  }

  datatype RegionType =
    | Unknown | UOffset | SOffset | VOffset | CharRegion | Uint8 | Uint16 | Int16 | Uint32 | Uint64 | Int64
    | FloatRegion | DoubleRegion | UTypeRegion | UOffset64

  function RegionTypeOf(base: BaseType): RegionType {
    match base
    case UType => UTypeRegion
    case Bool | Byte | UByte => Uint8
    case Short => Int16
    case UShort => Uint16
    case Int | UInt => Uint32
    case Long => Int64
    case ULong => Uint64
    case Float => FloatRegion
    case Double => DoubleRegion
  }

  // ---------------------------------------------------------------- structs

  /** A struct: its alignment and size, and its fields in declaration order. Nesting is finite. */
  datatype StructDef = StructDef(minalign: nat, bytesize: nat, fields: seq<StructField>)

  /** padding is the number of bytes after the field. */
  datatype StructField = StructField(ty: StructFieldType, padding: nat)

  datatype StructFieldType =
    | ScalarField(base: BaseType)
    | NestedField(def: StructDef)
    | ScalarArray(base: BaseType, length: nat)
    | StructArray(def: StructDef, length: nat)

  // ---------------------------------------------------------------- tables

  /** The element of a vector: an enum index goes with the types of unions. */
  datatype ElementType =
    | ScalarElement(base: BaseType, enumIndex: int)
    | StructElement(def: StructDef)
    | TableElement(table: nat)
    | StringElement
    | UnionElement(enumId: nat)

  /** enumIndex is the enum of a scalar, negative when it has none. */
  datatype FieldType =
    | Scalar(base: BaseType, enumIndex: int)
    | Struct(def: StructDef)
    | Table(table: nat)
    | Str
    | Vector(element: ElementType, is64: bool)
    | Union(enumId: nat)

  datatype Field = Field(ty: FieldType, offset64: bool, required: bool)

  /** What a union value stands for. */
  datatype UnionMember = TableMember(table: nat) | StructMember(def: StructDef) | OtherMember

  /**
   * Tables with their fields by field id, enums with the members of their values, and the root table.
   */
  datatype Schema = Schema(tables: seq<seq<Field>>, enums: seq<seq<UnionMember>>, root: nat)

  /** Structs have fields, and arrays have elements, as the schema language demands. */
  predicate StructOk(def: StructDef) {
    def.fields != [] && forall f :: f in def.fields ==> FieldTypeOk(f.ty)
  }

  predicate FieldTypeOk(ty: StructFieldType) {
    match ty
    case ScalarField(_) => true
    case NestedField(def) => StructOk(def)
    case ScalarArray(_, n) => n > 0
    case StructArray(def, n) => n > 0 && StructOk(def)
  }

  predicate MemberOk(s: Schema, m: UnionMember) {
    match m
    case TableMember(t) => t < |s.tables|
    case StructMember(def) => StructOk(def)
    case OtherMember => true
  }

  predicate ElementOk(s: Schema, e: ElementType) {
    match e
    case StructElement(def) => StructOk(def)
    case TableElement(t) => t < |s.tables|
    case UnionElement(i) => i < |s.enums|
    case _ => true
  }

  predicate FieldOk(s: Schema, f: Field) {
    && Offset64Ok(f)
    && match f.ty
       case Struct(def) => StructOk(def)
       case Table(t) => t < |s.tables|
       case Vector(e, _) => ElementOk(s, e)
       case Union(i) => i < |s.enums|
       case Scalar(_, _) | Str => true
  }

  /** The element holds no offset. */
  predicate IsLeaf(e: ElementType) {
    e.ScalarElement? || e.StructElement?
  }

  /** 64-bit offsets are for strings and for vectors of scalars and structs only; 64-bit vectors have 64-bit offsets. */
  predicate Offset64Ok(f: Field) {
    && (f.ty.Vector? && f.ty.is64 ==> f.offset64)
    && (f.offset64 ==> f.ty.Str? || (f.ty.Vector? && IsLeaf(f.ty.element)))
  }

  /** The field before a union, or a vector of unions, holds its types. */
  predicate TypeFieldOk(fields: seq<Field>, id: nat)
    requires id < |fields|
  {
    match fields[id].ty
    case Union(e) => id > 0 && fields[id - 1].ty == Scalar(UType, e)
    case Vector(UnionElement(e), _) =>
      id > 0 && fields[id - 1].ty.Vector? && fields[id - 1].ty.element == ScalarElement(UType, e)
    case _ => true
  }

  /**
   * What the schema compiler and the verification of the schema buffer guarantee: every reference resolves, unions
   * come with their types, and field ids are 16-bit numbers.
   */
  ghost predicate WellFormed(s: Schema) {
    && s.root < |s.tables|
    && (forall t :: 0 <= t < |s.tables| ==>
          |s.tables[t]| <= U16 &&
          forall i :: 0 <= i < |s.tables[t]| ==> FieldOk(s, s.tables[t][i]) && TypeFieldOk(s.tables[t], i))
    && (forall e :: 0 <= e < |s.enums| ==> forall i :: 0 <= i < |s.enums[e]| ==> MemberOk(s, s.enums[e][i]))
  }

  /** Some field of some table is reached through a 64-bit offset, which can wrap around. */
  ghost predicate HasOffset64(s: Schema) {
    exists t, i :: 0 <= t < |s.tables| && 0 <= i < |s.tables[t]| && s.tables[t][i].offset64
  }

  // ---------------------------------------------------------------- annotations

  datatype Status =
    | Ok | Error | OffsetOutOfBinary | IncompleteBinary | LengthTooLong | LengthTooShort | RequiredFieldNotPresent
    | InvalidUnionType | CycleDetected | WarnNoReferences | WarnCorruptedPadding | WarnPaddingLength

  /** What a region that holds an offset refers to; for a vector, the id of its field too. */
  datatype Referent =
    | Nothing
    | ToTable(table: nat)
    | ToString
    | ToVector(id: nat, element: ElementType, is64: bool)
    | ToUnion(enumIndex: nat, value: nat)

  datatype Region = Region(offset: nat, length: nat, ty: RegionType, status: Status, target: int, refersTo: Referent)

  datatype SectionType =
    | UnknownSection | Header | TableSection | RootTable | VTableSection | StringSection | VectorSection
    | Vector64Section | UnionSection | PaddingSection

  datatype Section = Section(key: nat, ty: SectionType, regions: seq<Region>)

  /** A region that refers to nothing. */
  function Plain(offset: nat, length: nat, ty: RegionType, status: Status): Region {
    Region(offset, length, ty, status, 0, Nothing)
  }
}
