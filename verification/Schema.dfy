/**
 The reflection schema with its type indices resolved.

 Structs cannot contain themselves, so a struct definition is a finite tree; tables may, so a table
 is named by its index in the schema.
 */
module Schema {
  import opened Wrappers
  import opened Floats
  import Bytes

  type I64 = n: int | -0x8000_0000_0000_0000 <= n <= 0x7FFF_FFFF_FFFF_FFFF

  datatype ScalarType =
    Bool | Byte | UByte | UType | Short | UShort | Int | UInt | Long | ULong | Float | Double

  datatype EnumVal = EnumVal(name: string, value: I64)
  datatype EnumDef = EnumDef(values: seq<EnumVal>)

  datatype StructDef = StructDef(name: string, fields: seq<StructField>, bytesize: nat, minalign: nat)
  datatype StructField = StructField(name: string, id: nat, offset: nat, typ: StructFieldType)
  datatype StructFieldType =
    | SScalar(st: ScalarType, en: Option<EnumDef>)
    | SStruct(def: StructDef)
    | SScalarArray(elem: ScalarType, len: nat)
    | SStructArray(elemDef: StructDef, len: nat)

  datatype VariantType = VTable(index: nat) | VStruct(def: StructDef) | VString
  datatype Variant = Variant(name: string, value: I64, typ: Option<VariantType>)

  datatype ElementType =
    | EScalar(st: ScalarType, en: Option<EnumDef>)
    | EString
    | EStruct(def: StructDef)
    | ETable(index: nat)
    | EOther

  datatype FieldType =
    | Scalar(st: ScalarType, en: Option<EnumDef>)
    | String
    | Struct(def: StructDef)
    | Table(index: nat)
    | Vector(elem: ElementType)
    | Union(variants: seq<Variant>)
    | Vector64

  datatype Field = Field(
    name: string,
    id: nat,
    offset: nat,         // vtable slot
    typ: FieldType,
    defaultInt: I64,
    defaultReal: F64,
    required: bool,
    key: bool,
    hex: bool)

  datatype TableDef = TableDef(name: string, fields: seq<Field>)
  datatype Schema = Schema(tables: seq<TableDef>)

  /** `schema.objects().get(index)`; a validated schema holds no index past the end. */
  function TableAt(s: Schema, index: nat): (def: TableDef)
    ensures index < |s.tables| ==> def == s.tables[index]
    ensures index >= |s.tables| ==> def.fields == []
  {
    if index < |s.tables| then s.tables[index] else TableDef("", [])
  }

  /** Inline size of a scalar. */
  function SizeOf(st: ScalarType): (n: nat)
    ensures n in {1, 2, 4, 8}
  {
    match st
    case Bool | Byte | UByte | UType => 1
    case Short | UShort => 2
    case Int | UInt | Float => 4
    case Long | ULong | Double => 8
  }

  function StructFieldSize(t: StructFieldType): nat {
    match t
    case SScalar(st, _) => SizeOf(st)
    case SStruct(d) => d.bytesize
    case SScalarArray(st, n) => Bytes.Offset(n, SizeOf(st))
    case SStructArray(d, n) => Bytes.Offset(n, d.bytesize)
  }

  predicate IsInteger(st: ScalarType) {
    !st.Bool? && !st.Float? && !st.Double?
  }

  predicate IsSigned(st: ScalarType) {
    st.Byte? || st.Short? || st.Int? || st.Long?
  }

  /** The types of fields that an object key or a literal in a query can stand for. */
  predicate TakesKeys(typ: FieldType) {
    typ.String? || (typ.Scalar? && typ.st in {Byte, UByte, Short, UShort, Int, UInt, Long, ULong})
  }

  function MinInt(st: ScalarType): int {
    match st
    case Byte => -0x80
    case Short => -0x8000
    case Int => -0x8000_0000
    case Long => -0x8000_0000_0000_0000
    case _ => 0
  }

  function MaxInt(st: ScalarType): int {
    match st
    case Bool => 1
    case Byte => 0x7F
    case UByte | UType => 0xFF
    case Short => 0x7FFF
    case UShort => 0xFFFF
    case Int => 0x7FFF_FFFF
    case UInt => 0xFFFF_FFFF
    case Long => 0x7FFF_FFFF_FFFF_FFFF
    case ULong => 0xFFFF_FFFF_FFFF_FFFF
    case Float | Double => 0
  }

  /** The signed integer whose two's complement word, of `2 * half` values, is `w`. */
  function TwosComplement(w: int, half: int): int {
    if w >= half then w - 2 * half else w
  }

  /** `n as T`: keep the low bits of an `i64` and reinterpret them. */
  function Cast(st: ScalarType, n: int): int {
    match st
    case Byte => TwosComplement(n % 0x100, 0x80)
    case UByte | UType => n % 0x100
    case Short => TwosComplement(n % 0x1_0000, 0x8000)
    case UShort => n % 0x1_0000
    case Int => TwosComplement(n % 0x1_0000_0000, 0x8000_0000)
    case UInt => n % 0x1_0000_0000
    case Long => TwosComplement(n % 0x1_0000_0000_0000_0000, 0x8000_0000_0000_0000)
    case ULong => n % 0x1_0000_0000_0000_0000
    case _ => n
  }

  lemma {:induction false} CastRange(st: ScalarType, n: int)
    requires IsInteger(st)
    ensures MinInt(st) <= Cast(st, n) <= MaxInt(st)
  {
  }

  lemma {:induction false} CastExact(st: ScalarType, n: int)
    requires MinInt(st) <= n <= MaxInt(st)
    ensures Cast(st, n) == n
  {
    hide Cast, MinInt, MaxInt;
    match SizeOf(st) {
      case 1 => ExactByte(st, n);
      case 2 => ExactShort(st, n);
      case 4 => ExactInt(st, n);
      case 8 => ExactLong(st, n);
    }
  }

  lemma {:induction false} ExactByte(st: ScalarType, n: int)
    requires SizeOf(st) == 1 && MinInt(st) <= n <= MaxInt(st)
    ensures Cast(st, n) == n
  {
  }

  lemma {:induction false} ExactShort(st: ScalarType, n: int)
    requires SizeOf(st) == 2 && MinInt(st) <= n <= MaxInt(st)
    ensures Cast(st, n) == n
  {
  }

  lemma {:induction false} ExactInt(st: ScalarType, n: int)
    requires SizeOf(st) == 4 && MinInt(st) <= n <= MaxInt(st)
    ensures Cast(st, n) == n
  {
  }

  lemma {:induction false} ExactLong(st: ScalarType, n: int)
    requires SizeOf(st) == 8 && MinInt(st) <= n <= MaxInt(st)
    ensures Cast(st, n) == n
  {
  }

  /** The value of the member called `name`: the first match in the value list. */
  function ValueOfName(values: seq<EnumVal>, name: string): Option<I64> {
    if values == [] then None
    else if values[0].name == name then Some(values[0].value)
    else ValueOfName(values[1..], name)
  }

  /** The name of the member with this value (`lookup_by_key`; values are unique). */
  function NameOfValue(values: seq<EnumVal>, value: int): Option<string> {
    if values == [] then None
    else if values[0].value == value then Some(values[0].name)
    else NameOfValue(values[1..], value)
  }

  function VariantByName(variants: seq<Variant>, name: string): Option<Variant> {
    if variants == [] then None
    else if variants[0].name == name then Some(variants[0])
    else VariantByName(variants[1..], name)
  }

  function VariantByValue(variants: seq<Variant>, value: int): Option<Variant> {
    if variants == [] then None
    else if variants[0].value == value then Some(variants[0])
    else VariantByValue(variants[1..], value)
  }

  function FieldByName(fields: seq<Field>, name: string): Option<Field> {
    if fields == [] then None
    else if fields[0].name == name then Some(fields[0])
    else FieldByName(fields[1..], name)
  }

  function FieldById(fields: seq<Field>, id: nat): Option<Field> {
    if fields == [] then None
    else if fields[0].id == id then Some(fields[0])
    else FieldById(fields[1..], id)
  }

  function StructFieldByName(fields: seq<StructField>, name: string): Option<StructField> {
    if fields == [] then None
    else if fields[0].name == name then Some(fields[0])
    else StructFieldByName(fields[1..], name)
  }

  function StructFieldById(fields: seq<StructField>, id: nat): Option<StructField> {
    if fields == [] then None
    else if fields[0].id == id then Some(fields[0])
    else StructFieldById(fields[1..], id)
  }

  /** How many fields carry `(key)`. */
  function KeyCount(fields: seq<Field>): nat {
    if fields == [] then 0 else (if fields[0].key then 1 else 0) + KeyCount(fields[1..])
  }

  /** The first `(key)` field. */
  function KeyedField(fields: seq<Field>): Option<Field> {
    if fields == [] then None
    else if fields[0].key then Some(fields[0])
    else KeyedField(fields[1..])
  }

  function StructNames(fields: seq<StructField>): set<string> {
    set i | 0 <= i < |fields| :: fields[i].name
  }

  /** The auto-generated key of a union's discriminator. */
  function DiscKey(name: string): string {
    name + "_type"
  }

  // Id order (`sort_by_key(|f| f.id())`, stable).

  function InsertById(f: Field, fs: seq<Field>): (r: seq<Field>)
    ensures multiset(r) == multiset(fs) + multiset{f}
  {
    if fs == [] || f.id < fs[0].id then [f] + fs
    else
      assert fs == [fs[0]] + fs[1..];
      [fs[0]] + InsertById(f, fs[1..])
  }

  function ById(fields: seq<Field>): (r: seq<Field>)
    ensures multiset(r) == multiset(fields)
  {
    if fields == [] then []
    else
      var n := |fields| - 1;
      assert fields == fields[..n] + [fields[n]];
      InsertById(fields[n], ById(fields[..n]))
  }

  function InsertStructById(f: StructField, fs: seq<StructField>): (r: seq<StructField>)
    ensures multiset(r) == multiset(fs) + multiset{f}
  {
    if fs == [] || f.id < fs[0].id then [f] + fs
    else
      assert fs == [fs[0]] + fs[1..];
      [fs[0]] + InsertStructById(f, fs[1..])
  }

  function StructById(fields: seq<StructField>): (r: seq<StructField>)
    ensures multiset(r) == multiset(fields)
  {
    if fields == [] then []
    else
      var n := |fields| - 1;
      assert fields == fields[..n] + [fields[n]];
      InsertStructById(fields[n], StructById(fields[..n]))
  }

  // What the lookups find.

  /** The first element with the property, or none if no element has it. */
  ghost predicate IsFirst<T>(s: seq<T>, has: T -> bool, r: Option<T>) {
    match r
    case Some(x) => exists i :: 0 <= i < |s| && s[i] == x && has(x) && forall j :: 0 <= j < i ==> !has(s[j])
    case None => forall i :: 0 <= i < |s| ==> !has(s[i])
  }

  lemma {:induction false} FirstFurtherOn<T>(s: seq<T>, has: T -> bool, r: Option<T>)
    requires s != [] && !has(s[0]) && IsFirst(s[1..], has, r)
    ensures IsFirst(s, has, r)
  {
    match r {
      case Some(x) =>
        var i :| 0 <= i < |s[1..]| && s[1..][i] == x && has(x) && forall j :: 0 <= j < i ==> !has(s[1..][j]);
        forall j | 0 <= j < i + 1 ensures !has(s[j]) {
          if j > 0 { assert s[j] == s[1..][j - 1]; }
        }
        assert s[i + 1] == x;
      case None =>
        forall i | 0 <= i < |s| ensures !has(s[i]) {
          if i > 0 { assert s[i] == s[1..][i - 1]; }
        }
    }
  }

  lemma {:induction false} FirstHere<T>(s: seq<T>, has: T -> bool)
    requires s != [] && has(s[0])
    ensures IsFirst(s, has, Some(s[0]))
  {
  }

  lemma {:induction false} FirstIsUnique<T>(s: seq<T>, has: T -> bool, a: Option<T>, b: Option<T>)
    requires IsFirst(s, has, a) && IsFirst(s, has, b)
    ensures a == b
  {
    if a.Some? && b.Some? {
      var i :| 0 <= i < |s| && s[i] == a.value && has(a.value) && forall j :: 0 <= j < i ==> !has(s[j]);
      var k :| 0 <= k < |s| && s[k] == b.value && has(b.value) && forall j :: 0 <= j < k ==> !has(s[j]);
      assert !(i < k) && !(k < i);
    }
  }

  lemma {:induction false} NamedField(fields: seq<Field>, name: string)
    ensures IsFirst(fields, (x: Field) => x.name == name, FieldByName(fields, name))
  {
    if fields != [] {
      if fields[0].name == name {
        FirstHere(fields, (x: Field) => x.name == name);
      } else {
        NamedField(fields[1..], name);
        FirstFurtherOn(fields, (x: Field) => x.name == name, FieldByName(fields, name));
      }
    }
  }

  lemma {:induction false} FieldWithId(fields: seq<Field>, id: nat)
    ensures IsFirst(fields, (x: Field) => x.id == id, FieldById(fields, id))
  {
    if fields != [] {
      if fields[0].id == id {
        FirstHere(fields, (x: Field) => x.id == id);
      } else {
        FieldWithId(fields[1..], id);
        FirstFurtherOn(fields, (x: Field) => x.id == id, FieldById(fields, id));
      }
    }
  }

  lemma {:induction false} NamedStructField(fields: seq<StructField>, name: string)
    ensures IsFirst(fields, (x: StructField) => x.name == name, StructFieldByName(fields, name))
  {
    if fields != [] {
      if fields[0].name == name {
        FirstHere(fields, (x: StructField) => x.name == name);
      } else {
        NamedStructField(fields[1..], name);
        FirstFurtherOn(fields, (x: StructField) => x.name == name, StructFieldByName(fields, name));
      }
    }
  }

  lemma {:induction false} StructFieldWithId(fields: seq<StructField>, id: nat)
    ensures IsFirst(fields, (x: StructField) => x.id == id, StructFieldById(fields, id))
  {
    if fields != [] {
      if fields[0].id == id {
        FirstHere(fields, (x: StructField) => x.id == id);
      } else {
        StructFieldWithId(fields[1..], id);
        FirstFurtherOn(fields, (x: StructField) => x.id == id, StructFieldById(fields, id));
      }
    }
  }

  lemma {:induction false} VariantNamed(variants: seq<Variant>, name: string)
    ensures IsFirst(variants, (x: Variant) => x.name == name, VariantByName(variants, name))
  {
    if variants != [] {
      if variants[0].name == name {
        FirstHere(variants, (x: Variant) => x.name == name);
      } else {
        VariantNamed(variants[1..], name);
        FirstFurtherOn(variants, (x: Variant) => x.name == name, VariantByName(variants, name));
      }
    }
  }

  lemma {:induction false} VariantWithValue(variants: seq<Variant>, value: int)
    ensures IsFirst(variants, (x: Variant) => x.value == value, VariantByValue(variants, value))
  {
    if variants != [] {
      if variants[0].value == value {
        FirstHere(variants, (x: Variant) => x.value == value);
      } else {
        VariantWithValue(variants[1..], value);
        FirstFurtherOn(variants, (x: Variant) => x.value == value, VariantByValue(variants, value));
      }
    }
  }

  /** The field marked as the key is the first that is; more than one are counted as such. */
  lemma {:induction false} MarkedField(fields: seq<Field>)
    ensures IsFirst(fields, (x: Field) => x.key, KeyedField(fields))
    ensures KeyCount(fields) > 1 <==> exists i, j :: 0 <= i < j < |fields| && fields[i].key && fields[j].key
  {
    if fields != [] {
      var rest := fields[1..];
      MarkedField(rest);
      if fields[0].key {
        FirstHere(fields, (x: Field) => x.key);
      } else {
        FirstFurtherOn(fields, (x: Field) => x.key, KeyedField(fields));
      }
      TwoMarked(fields);
    }
  }

  lemma {:induction false} TwoMarked(fields: seq<Field>)
    requires fields != []
    requires KeyCount(fields[1..]) > 1 <==>
      exists i, j :: 0 <= i < j < |fields[1..]| && fields[1..][i].key && fields[1..][j].key
    ensures KeyCount(fields) > 1 <==> exists i, j :: 0 <= i < j < |fields| && fields[i].key && fields[j].key
  {
    var rest := fields[1..];
    CountsAny(rest);
    if KeyCount(rest) > 1 {
      var i, j :| 0 <= i < j < |rest| && rest[i].key && rest[j].key;
      assert fields[i + 1].key && fields[j + 1].key;
    } else if fields[0].key && KeyCount(rest) > 0 {
      var j :| 0 <= j < |rest| && rest[j].key;
      assert fields[0].key && fields[j + 1].key;
    } else {
      forall i, j | 0 <= i < j < |fields| ensures !(fields[i].key && fields[j].key) {
        assert fields[j] == rest[j - 1];
        if i > 0 { assert fields[i] == rest[i - 1]; }
      }
    }
  }

  lemma {:induction false} CountsAny(fields: seq<Field>)
    ensures KeyCount(fields) > 0 <==> exists i :: 0 <= i < |fields| && fields[i].key
  {
    if fields != [] {
      CountsAny(fields[1..]);
      if KeyCount(fields[1..]) > 0 {
        var i :| 0 <= i < |fields[1..]| && fields[1..][i].key;
        assert fields[i + 1].key;
      }
      forall i | 0 < i < |fields| ensures fields[i] == fields[1..][i - 1] { }
    }
  }

  /** The value of the first member called `name`. */
  lemma {:induction false} ValueIsNamed(values: seq<EnumVal>, name: string) returns (e: Option<EnumVal>)
    ensures IsFirst(values, (x: EnumVal) => x.name == name, e)
    ensures ValueOfName(values, name) == if e.Some? then Some(e.value.value) else None
  {
    e := None;
    if values != [] {
      if values[0].name == name {
        e := Some(values[0]);
        FirstHere(values, (x: EnumVal) => x.name == name);
      } else {
        e := ValueIsNamed(values[1..], name);
        FirstFurtherOn(values, (x: EnumVal) => x.name == name, e);
      }
    }
  }

  /** The name of the first member with this value. */
  lemma {:induction false} NameIsValues(values: seq<EnumVal>, value: int) returns (e: Option<EnumVal>)
    ensures IsFirst(values, (x: EnumVal) => x.value == value, e)
    ensures NameOfValue(values, value) == if e.Some? then Some(e.value.name) else None
  {
    e := None;
    if values != [] {
      if values[0].value == value {
        e := Some(values[0]);
        FirstHere(values, (x: EnumVal) => x.value == value);
      } else {
        e := NameIsValues(values[1..], value);
        FirstFurtherOn(values, (x: EnumVal) => x.value == value, e);
      }
    }
  }

  /** A cast keeps the number up to multiples of the type's 2^bits, and so is the only one in range that does. */
  lemma {:induction false} CastWraps(st: ScalarType, n: int)
    requires IsInteger(st)
    ensures MinInt(st) <= Cast(st, n) <= MaxInt(st) && (Cast(st, n) - n) % Bytes.Pow256(SizeOf(st)) == 0
  {
    hide Bytes.Pow256;
    Bytes.Pow256Values();
    CastRange(st, n);
    match SizeOf(st) {
      case 1 => WrapsByte(st, n);
      case 2 => WrapsShort(st, n);
      case 4 => WrapsInt(st, n);
      case 8 => WrapsLong(st, n);
    }
  }

  lemma {:induction false} WrapsByte(st: ScalarType, n: int)
    requires IsInteger(st) && SizeOf(st) == 1
    ensures (Cast(st, n) - n) % 0x100 == 0
  {
  }

  lemma {:induction false} WrapsShort(st: ScalarType, n: int)
    requires IsInteger(st) && SizeOf(st) == 2
    ensures (Cast(st, n) - n) % 0x1_0000 == 0
  {
  }

  lemma {:induction false} WrapsInt(st: ScalarType, n: int)
    requires IsInteger(st) && SizeOf(st) == 4
    ensures (Cast(st, n) - n) % 0x1_0000_0000 == 0
  {
  }

  lemma {:induction false} WrapsLong(st: ScalarType, n: int)
    requires IsInteger(st) && SizeOf(st) == 8
    ensures (Cast(st, n) - n) % 0x1_0000_0000_0000_0000 == 0
  {
  }

  // Id order.

  predicate AscendingIds(fields: seq<Field>) {
    forall i, j :: 0 <= i < j < |fields| ==> fields[i].id <= fields[j].id
  }

  lemma {:induction false} InsertAscends(f: Field, fs: seq<Field>)
    requires AscendingIds(fs)
    ensures AscendingIds(InsertById(f, fs))
  {
    if fs != [] && f.id >= fs[0].id {
      InsertAscends(f, fs[1..]);
      var r := InsertById(f, fs[1..]);
      forall i | 0 <= i < |r| ensures fs[0].id <= r[i].id {
        assert r[i] in multiset(r) && (r[i] == f || r[i] in fs[1..]);
      }
    }
  }

  /** `to_json` visits a table's fields, all of them and once each, in ascending id. */
  lemma {:induction false} ByIdSorts(fields: seq<Field>)
    ensures AscendingIds(ById(fields)) && multiset(ById(fields)) == multiset(fields)
  {
    if fields != [] {
      ByIdSorts(fields[..|fields| - 1]);
      InsertAscends(fields[|fields| - 1], ById(fields[..|fields| - 1]));
    }
  }

  predicate AscendingStructIds(fields: seq<StructField>) {
    forall i, j :: 0 <= i < j < |fields| ==> fields[i].id <= fields[j].id
  }

  lemma {:induction false} StructInsertAscends(f: StructField, fs: seq<StructField>)
    requires AscendingStructIds(fs)
    ensures AscendingStructIds(InsertStructById(f, fs))
  {
    if fs != [] && f.id >= fs[0].id {
      StructInsertAscends(f, fs[1..]);
      var r := InsertStructById(f, fs[1..]);
      forall i | 0 <= i < |r| ensures fs[0].id <= r[i].id {
        assert r[i] in multiset(r) && (r[i] == f || r[i] in fs[1..]);
      }
    }
  }

  /** The same for a struct's fields. */
  lemma {:induction false} StructByIdSorts(fields: seq<StructField>)
    ensures AscendingStructIds(StructById(fields)) && multiset(StructById(fields)) == multiset(fields)
  {
    if fields != [] {
      StructByIdSorts(fields[..|fields| - 1]);
      StructInsertAscends(fields[|fields| - 1], StructById(fields[..|fields| - 1]));
    }
  }
}
