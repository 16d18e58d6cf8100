/** The names of enum values in generated code: a dense table, or a switch. */
module EnumTables {
  import opened Bytes

  /** A value as the 64-bit number that a cast makes of it. */
  function AsU64(v: int): (n: nat)
    ensures n < U64
  {
    v % U64
  }

  /** Values that a signed, or an unsigned, 64-bit enum can have. */
  predicate InRange(v: int, isUInt64: bool) {
    if isUInt64 then 0 <= v < U64 else -0x8000_0000_0000_0000 <= v < 0x8000_0000_0000_0000
  }

  /** Enum values in strictly ascending order, as the parser leaves them. */
  predicate EnumOk(vals: seq<int>, isUInt64: bool) {
    && vals != []
    && (forall i :: 0 <= i < |vals| ==> InRange(vals[i], isUInt64))
    && (forall i, j :: 0 <= i < j < |vals| ==> vals[i] < vals[j])
  }

  /** The difference, computed in unsigned 64-bit arithmetic. */
  function EnumDistance(e1: int, e2: int): nat {
    var hi, lo := if e1 < e2 then e2 else e1, if e1 < e2 then e1 else e2;
    (AsU64(hi) - AsU64(lo)) % U64
  }

  lemma DistanceExact(e1: int, e2: int, isUInt64: bool)
    requires InRange(e1, isUInt64) && InRange(e2, isUInt64)
    ensures EnumDistance(e1, e2) == if e1 < e2 then e2 - e1 else e1 - e2
  {
    var hi, lo := if e1 < e2 then e2 else e1, if e1 < e2 then e1 else e2;
    WrapDifference(hi, lo);
  }

  /** Casts do not change a difference that fits in 64 bits. */
  lemma WrapDifference(hi: int, lo: int)
    requires lo <= hi < lo + U64
    ensures (AsU64(hi) - AsU64(lo)) % U64 == hi - lo
  {
    var q := (AsU64(hi) - hi) / U64 - (AsU64(lo) - lo) / U64;
    assert hi == U64 * (hi / U64) + AsU64(hi) && lo == U64 * (lo / U64) + AsU64(lo);
    DivModUnique(AsU64(hi) - AsU64(lo), U64, lo / U64 - hi / U64, hi - lo);
  }

  /** What is generated: a table of names, null at its end, with the least and greatest value; or a switch. */
  datatype EnumCode =
    | Table(size: nat, names: seq<Option<string>>, min: int, max: int)
    | Switch(cases: seq<(int, string)>)

  const MAX_SPARSENESS: nat := 5

  function Cases(vals: seq<int>, names: seq<string>): seq<(int, string)>
    requires |vals| == |names|
  {
    seq(|vals|, i requires 0 <= i < |vals| => (vals[i], names[i]))
  }

  /** The entries up to and with that of value i: its name at its distance from the least value, blanks elsewhere. */
  ghost predicate Tabulates(t: seq<Option<string>>, vals: seq<int>, names: seq<string>, n: nat)
    requires |vals| == |names| && 0 < n <= |vals|
  {
    && |t| == vals[n - 1] - vals[0] + 1
    && (forall i {:trigger names[i]} ::
          0 <= i < n ==> 0 <= vals[i] - vals[0] < |t| && t[vals[i] - vals[0]] == Some(names[i]))
    && (forall k :: 0 <= k < |t| && (forall i :: 0 <= i < n ==> vals[i] != vals[0] + k) ==> t[k] == Some(""))
  }

  method GenNames(vals: seq<int>, names: seq<string>, isUInt64: bool) returns (t: seq<Option<string>>)
    requires EnumOk(vals, isUInt64) && |vals| == |names|
    ensures Tabulates(t, vals, names, |vals|)
  {
    t := [];
    var val := vals[0];
    for n := 0 to |vals|
      invariant val == vals[if n == 0 then 0 else n - 1]
      invariant if n == 0 then t == [] else Tabulates(t, vals, names, n)
    {
      DistanceExact(val, vals[n], isUInt64);
      ghost var before := t;
      var k := EnumDistance(val, vals[n]);
      while k > 1
        invariant n > 0 ==> k <= vals[n] - val && |t| == |before| + (vals[n] - val) - k && k >= 1
        invariant n == 0 ==> t == [] && k == 0
        invariant before <= t && forall j :: |before| <= j < |t| ==> t[j] == Some("")
      {
        t := t + [Some("")];
        k := k - 1;
      }
      val := vals[n];
      ghost var blanks := t;
      t := t + [Some(names[n])];
      Tabulated(before, blanks, t, vals, names, n);
    }
  }

  /** Blanks up to the next value, and then its name, extend the table by that value. */
  lemma Tabulated(before: seq<Option<string>>, blanks: seq<Option<string>>, t: seq<Option<string>>, vals: seq<int>,
                  names: seq<string>, n: nat)
    requires |vals| == |names| && n < |vals| && forall i, j :: 0 <= i < j < |vals| ==> vals[i] < vals[j]
    requires if n == 0 then before == [] else Tabulates(before, vals, names, n)
    requires before <= blanks && |blanks| == vals[n] - vals[0]
    requires forall j :: |before| <= j < |blanks| ==> blanks[j] == Some("")
    requires t == blanks + [Some(names[n])]
    ensures Tabulates(t, vals, names, n + 1)
  {
    forall i | 0 <= i < n + 1
      ensures 0 <= vals[i] - vals[0] < |t| && t[vals[i] - vals[0]] == Some(names[i])
    {
      if i < n {
        assert before[vals[i] - vals[0]] == Some(names[i]);
      }
    }
    forall k | 0 <= k < |t| && (forall i :: 0 <= i < n + 1 ==> vals[i] != vals[0] + k)
      ensures t[k] == Some("")
    {
      assert vals[n] != vals[0] + k;
      if k < |before| {
        assert before[k] == Some("");
      }
    }
  }

  /** A table for the values: as large as declared, which is two more than their range, and null at its end. */
  ghost predicate TableOk(code: EnumCode, vals: seq<int>, names: seq<string>)
    requires |vals| == |names| && vals != []
  {
    && code.Table? && code.min == vals[0] && code.max == vals[|vals| - 1]
    && code.size == |code.names| == code.max - code.min + 2
    && code.names != [] && code.names[|code.names| - 1] == None
    && Tabulates(code.names[..|code.names| - 1], vals, names, |vals|)
  }

  method GenTable(vals: seq<int>, names: seq<string>, isUInt64: bool, range: nat) returns (code: EnumCode)
    requires EnumOk(vals, isUInt64) && |vals| == |names| && range == vals[|vals| - 1] - vals[0]
    ensures TableOk(code, vals, names) && SameNames(code, Switch(Cases(vals, names)))
  {
    var t := GenNames(vals, names, isUInt64);
    assert (t + [None])[..|t|] == t;
    code := Table(range + 1 + 1, t + [None], vals[0], vals[|vals| - 1]);
    TableIsSwitchEverywhere(vals, names, isUInt64, t, range + 1 + 1);
  }

  lemma QuotientBelow(a: nat, d: nat, k: nat)
    requires d > 0
    ensures a / d < k <==> a < k * d
  {
    var q := a / d;
    assert a == d * q + a % d;
    if q < k {
      assert d * q <= d * (k - 1) == k * d - d;
    } else {
      assert d * q >= d * k;
    }
  }

  /** Values close enough together get a table, others a switch; either way it names the same values the same. */
  method GenEnumStringTable(vals: seq<int>, names: seq<string>, isUInt64: bool) returns (code: EnumCode)
    requires EnumOk(vals, isUInt64) && |vals| == |names|
    ensures if vals[|vals| - 1] - vals[0] < 5 * |vals| then TableOk(code, vals, names)
            else code == Switch(Cases(vals, names))
    ensures SameNames(code, Switch(Cases(vals, names))) && NamesThem(code, vals, names)
  {
    DistanceExact(vals[0], vals[|vals| - 1], isUInt64);
    SwitchNamesThem(vals, names);
    var range := EnumDistance(vals[0], vals[|vals| - 1]);
    QuotientBelow(range, |vals|, MAX_SPARSENESS);
    if range / |vals| < MAX_SPARSENESS {
      code := GenTable(vals, names, isUInt64, range);
    } else {
      code := Switch(Cases(vals, names));
    }
  }

  // ---------------------------------------------------------------- what the generated function returns

  function SwitchName(cases: seq<(int, string)>, e: int): string {
    if cases == [] then "" else if cases[0].0 == e then cases[0].1 else SwitchName(cases[1..], e)
  }

  /** The index is computed in 64 bits; the least value is subtracted only if it is not zero. */
  function TableIndex(min: int, e: int): nat {
    if min != 0 then (AsU64(e) - AsU64(min)) % U64 else AsU64(e)
  }

  /** The generated function; null if the table is read at its end, or behind it. */
  function EnumName(code: EnumCode, e: int): Option<string> {
    match code
    case Switch(cases) => Some(SwitchName(cases, e))
    case Table(_, names, min, max) =>
      if e < min || max < e then Some("")
      else if TableIndex(min, e) < |names| then names[TableIndex(min, e)] else None
  }

  lemma {:induction false} SwitchFinds(cases: seq<(int, string)>, e: int, i: nat)
    requires forall j, k :: 0 <= j < k < |cases| ==> cases[j].0 != cases[k].0
    requires i < |cases| && cases[i].0 == e
    ensures SwitchName(cases, e) == cases[i].1
  {
    if i > 0 {
      SwitchFinds(cases[1..], e, i - 1);
    }
  }

  lemma {:induction false} SwitchMisses(cases: seq<(int, string)>, e: int)
    requires forall j :: 0 <= j < |cases| ==> cases[j].0 != e
    ensures SwitchName(cases, e) == ""
  {
    if cases != [] {
      SwitchMisses(cases[1..], e);
    }
  }

  /** Within the range the index is the distance from the least value, whatever wraps around on the way. */
  lemma IndexExact(min: int, e: int)
    requires min <= e < min + U64 && (min == 0 ==> e < U64)
    ensures TableIndex(min, e) == e - min
  {
    if min == 0 {
      DivModUnique(e, U64, 0, e);
    } else {
      WrapDifference(e, min);
    }
  }

  lemma TableNames(t: seq<Option<string>>, size: nat, min: int, max: int, e: int)
    requires |t| == max - min + 1 <= U64 && min <= e <= max
    ensures EnumName(Table(size, t + [None], min, max), e) == t[e - min]
  {
    IndexExact(min, e);
  }

  lemma CasesApart(vals: seq<int>, names: seq<string>)
    requires |vals| == |names| && forall j, k :: 0 <= j < k < |vals| ==> vals[j] < vals[k]
    ensures var cases := Cases(vals, names); forall j, k :: 0 <= j < k < |cases| ==> cases[j].0 != cases[k].0
  {
  }

  /** The name that a value, or no value, has in a table of names. */
  lemma TableEntry(vals: seq<int>, names: seq<string>, t: seq<Option<string>>, e: int)
    requires vals != [] && |vals| == |names| && Tabulates(t, vals, names, |vals|)
    requires forall j, k :: 0 <= j < k < |vals| ==> vals[j] < vals[k]
    requires vals[0] <= e <= vals[|vals| - 1]
    ensures t[e - vals[0]] == Some(SwitchName(Cases(vals, names), e))
  {
    if i :| 0 <= i < |vals| && vals[i] == e {
      CasesApart(vals, names);
      SwitchFinds(Cases(vals, names), e, i);
    } else {
      SwitchMisses(Cases(vals, names), e);
    }
  }

  /** The table gives every integer, whether it is an enum value or not, the name that the switch gives it. */
  lemma TableIsSwitch(vals: seq<int>, names: seq<string>, isUInt64: bool, t: seq<Option<string>>, size: nat, e: int)
    requires EnumOk(vals, isUInt64) && |vals| == |names| && Tabulates(t, vals, names, |vals|)
    ensures EnumName(Table(size, t + [None], vals[0], vals[|vals| - 1]), e) == EnumName(Switch(Cases(vals, names)), e)
  {
    if vals[0] <= e <= vals[|vals| - 1] {
      TableNames(t, size, vals[0], vals[|vals| - 1], e);
      TableEntry(vals, names, t, e);
    } else {
      SwitchMisses(Cases(vals, names), e);
    }
  }

  /** The two forms of the generated function agree on every integer. */
  ghost predicate SameNames(c: EnumCode, d: EnumCode) {
    forall e: int :: EnumName(c, e) == EnumName(d, e)
  }

  lemma TableIsSwitchEverywhere(vals: seq<int>, names: seq<string>, isUInt64: bool, t: seq<Option<string>>, size: nat)
    requires EnumOk(vals, isUInt64) && |vals| == |names| && Tabulates(t, vals, names, |vals|)
    ensures SameNames(Table(size, t + [None], vals[0], vals[|vals| - 1]), Switch(Cases(vals, names)))
  {
    forall e: int
      ensures EnumName(Table(size, t + [None], vals[0], vals[|vals| - 1]), e) == EnumName(Switch(Cases(vals, names)), e)
    {
      TableIsSwitch(vals, names, isUInt64, t, size, e);
    }
  }

  /** Every value gets its own name, and every other integer a blank one. */
  ghost predicate NamesThem(code: EnumCode, vals: seq<int>, names: seq<string>)
    requires |vals| == |names|
  {
    && (forall i :: 0 <= i < |vals| ==> EnumName(code, vals[i]) == Some(names[i]))
    && forall e: int :: e !in vals ==> EnumName(code, e) == Some("")
  }

  lemma SwitchNamesThem(vals: seq<int>, names: seq<string>)
    requires |vals| == |names| && forall j, k :: 0 <= j < k < |vals| ==> vals[j] < vals[k]
    ensures NamesThem(Switch(Cases(vals, names)), vals, names)
  {
    var cases := Cases(vals, names);
    CasesApart(vals, names);
    forall i | 0 <= i < |vals|
      ensures SwitchName(cases, vals[i]) == names[i]
    {
      SwitchFinds(cases, vals[i], i);
    }
    forall e: int | e !in vals
      ensures SwitchName(cases, e) == ""
    {
      SwitchMisses(cases, e);
    }
  }
}
