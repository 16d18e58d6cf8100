/** Single steps of the walk, on given bytes, that show less than one might expect. */
module Shortfalls {
  import opened Bytes
  import opened Schema
  import opened Walks
  import opened WalkFacts
  import opened StructBodies
  import opened StructReading

  // ---------------------------------------------------------------- reading given bytes

  function Two(b: seq<byte>, at: nat): nat
    requires at + 2 <= |b|
  {
    b[at] as nat + 256 * b[at + 1] as nat
  }

  function Four(b: seq<byte>, at: nat): nat
    requires at + 4 <= |b|
  {
    Two(b, at) + 0x1_0000 * Two(b, at + 2)
  }

  lemma FromTwo(s: seq<byte>)
    requires |s| == 2
    ensures FromLE(s) == s[0] as nat + 256 * s[1] as nat
  {
    assert s[1..][1..] == [];
    assert FromLE(s[1..]) == s[1] as nat + 256 * FromLE(s[1..][1..]);
  }

  lemma ReadsTwo(b: seq<byte>, at: nat)
    requires 2 < |b| && at + 2 <= |b|
    ensures Read(b, at, 2) == Some(Two(b, at))
  {
    FromTwo(b[at..at + 2]);
  }

  lemma ReadsFour(b: seq<byte>, at: nat)
    requires 4 < |b| && at + 4 <= |b|
    ensures FromLE(b[at..at + 4]) == Four(b, at) && Read(b, at, 4) == Some(Four(b, at))
  {
    var s := b[at..at + 4];
    FromTwo(s[2..]);
    assert s[1..][1..] == s[2..];
    assert FromLE(s[1..]) == s[1] as nat + 256 * FromLE(s[1..][1..]);
  }

  function Eight(b: seq<byte>, at: nat): nat
    requires at + 8 <= |b|
  {
    Four(b, at) + U32 * Four(b, at + 4)
  }

  lemma ReadsEight(b: seq<byte>, at: nat)
    requires 8 < |b| && at + 8 <= |b|
    ensures Read(b, at, 8) == Some(Eight(b, at))
  {
    var s := b[at..at + 8];
    ReadsFour(b, at + 4);
    assert s[4..] == b[at + 4..at + 8];
    assert s[1..][1..] == s[2..] && s[2..][1..] == s[3..] && s[3..][1..] == s[4..];
    assert FromLE(s[3..]) == s[3] as nat + 256 * FromLE(s[4..]);
    assert FromLE(s[2..]) == s[2] as nat + 256 * FromLE(s[3..]);
    assert FromLE(s[1..]) == s[1] as nat + 256 * FromLE(s[2..]);
  }

  // ---------------------------------------------------------------- padding where the binary ends

  /** A number of four bytes, and four bytes of padding. */
  const PADDED := StructDef(8, 8, [StructField(ScalarField(Int), 4)])

  /** The last four bytes of the binary are the struct's, but get no region. */
  lemma PaddingIsLeftOut(b: seq<byte>)
    requires |b| == 16
    ensures StructOk(PADDED) && LaidOut(PADDED) && 8 + PADDED.bytesize <= |b|
    ensures StructWalk(b, 8, PADDED) == Walk([Plain(8, 4, Uint32, Ok)], 12)
    ensures !Reads(StructWalk(b, 8, PADDED), Items(PADDED, 8, [], []), 8 + PADDED.bytesize)
  {
    assert PADDED.fields[1..] == [];
    assert IsPow2(8) by {
      assert IsPow2(4);
    }
    ReadsIff(b, PADDED, 8, [], []);
  }

  // ---------------------------------------------------------------- unions

  const UNION_TABLE := Schema([[Field(Scalar(UType, 0), false, false), Field(Union(0), false, false)]],
                              [[OtherMember]], 0)

  /** The union at 8 leads to 12, but gets no region: its type, at 4, is 1, and there is only a type 0. */
  lemma UnionIsLeftOut(b: seq<byte>, entries: map<nat, Entry>)
    requires b == [0, 0, 0, 0, 1, 0, 0, 0, 4, 0, 0, 0, 0, 0, 0, 0]
    requires entries == map[0 := Entry(0, Some(UNION_TABLE.tables[0][0]), 4)]
    ensures IsValidOffset(b, 8 + Four(b, 8)) && Read(b, 4, 1) == Some(1)
    ensures OffsetFieldRegions(UNION_TABLE, b, 0, 8, 1, UNION_TABLE.tables[0][1], entries) == []
  {
    ReadsFour(b, 8);
    assert b[4..5] == [1] && [1][1..] == [];
  }

  /** A vector of three unions, whose first offset leads out of the binary: the other two are not looked at. */
  lemma BadOffsetIsRepeated(b: seq<byte>, typeAt: nat)
    requires b == [0, 0, 0, 0, 100, 0, 0, 0, 4, 0, 0, 0, 4, 0, 0, 0, 0, 0, 0, 0]
    ensures var r := Region(4, 4, UOffset, OffsetOutOfBinary, 104, Nothing);
            UnionElements(UNION_TABLE, b, 4, typeAt, 0, 0, 3) == [r, r, r]
  {
    ReadsFour(b, 4);
    BadOffsetRepeats(UNION_TABLE, b, 4, typeAt, 0, 0, 3);
  }

  // ---------------------------------------------------------------- numbers of 64 bits

  /** A string behind a 64-bit offset, which leads from 8 back to 0. */
  lemma OffsetLeadsBack(b: seq<byte>, s: Schema, entries: map<nat, Entry>)
    requires b == [0, 0, 0, 0, 0, 0, 0, 0, 248, 255, 255, 255, 255, 255, 255, 255]
    ensures OffsetFieldRegions(s, b, 4, 8, 0, Field(Str, true, false), entries)
            == [Region(8, 8, UOffset64, Ok, 0, ToString)]
  {
    ReadsEight(b, 8);
    assert Eight(b, 8) == U64 - 8;
  }

  /** A vector of 2^61 numbers of eight bytes, of which there is one: 2^64 bytes count as none. */
  lemma LengthWrapsAround(b: seq<byte>)
    requires b == [0, 0, 0, 0, 0, 0, 0, 32, 1, 2, 3, 4, 5, 6, 7, 8]
    ensures Read(b, 0, 8).Some? && ElementsEnd(b, 0, ScalarElement(ULong, -1), true) == U64 + 8
    ensures VectorStartAt(b, 0, ScalarElement(ULong, -1), true)
            == Elements(Plain(0, 8, Uint64, Ok), 0x2000_0000_0000_0000)
  {
    ReadsEight(b, 0);
    assert Four(b, 0) == 0 && Four(b, 4) == 0x2000_0000;
  }

  // ---------------------------------------------------------------- vtables

  /** A vtable at 4 with one entry, 8: as seen from a table at 8 it lists the field, as seen from one at 12 not. */
  lemma SharedVTableDiffers(s: Schema, b: seq<byte>)
    requires s == Schema([[Field(Scalar(UByte, -1), false, false)]], [], 0)
    requires b == [0, 0, 0, 0, 6, 0, 8, 0, 8, 0, 0, 0, 0, 0, 0, 0, 0]
    ensures IsUsable(b, 4) && Listed(b, 4, 6, 8, 0) && !Listed(b, 4, 6, 12, 0)
    ensures VTableAt(s, b, 4, 0, 8).vtable != VTableAt(s, b, 4, 0, 12).vtable
  {
    ReadsTwo(b, 4);
    ReadsTwo(b, 8);
    SharedIff(s, b, 4, 0, 8, 12);
  }

  /** A field at 4 that leads 65540 bytes on, to the types of unions: they are looked for 4 bytes on. */
  lemma TypesAreMissed(b: seq<byte>, entries: map<nat, Entry>)
    requires b == [0, 0, 0, 0, 4, 0, 1, 0, 0, 0, 0, 0, 0, 0, 0, 0]
    requires entries == map[0 := Entry(0, Some(Field(Vector(ScalarElement(UType, 0), false), false, false)), 4)]
    ensures Read(b, 4, 4) == Some(65540) && UnionTypesOf(b, 1, 0, entries) == TypesAt(4 + 4 + 4, 0)
  {
    ReadsFour(b, 4);
    ReadsTwo(b, 4);
    assert Four(b, 4) == 65540 && Two(b, 4) == 4;
  }
}
