/** lib/catalog: fields, schemas, records and table descriptions, with their bytes. */
module Catalog {
  import opened Bytes
  import opened Data

  datatype Field = Field(name: ByteString, ty: Type)
  datatype Schema = Schema(sortKey: uint64, partitionKey: uint64, fields: seq<Field>)
  datatype Table = Table(name: ByteString, schema: Schema, lastSstable: uint64)
  type Record = seq<Data>

  // ----- records

  function RecordSize(fields: seq<Field>): (n: nat) {
    if fields == [] then 0 else fields[0].ty.length + RecordSize(fields[1..])
  }

  predicate Verify(fields: seq<Field>, r: Record) {
    |r| == |fields| && forall i | 0 <= i < |r| :: TypeOf(r[i]) == fields[i].ty
  }

  function EncodeRecord(r: Record): (s: seq<byte>) {
    if r == [] then [] else Encode(r[0]) + EncodeRecord(r[1..])
  }

  function ParseRecord(s: seq<byte>, fields: seq<Field>): (p: Parsed<Record>) {
    if fields == [] then Ok([], s) else
    var (d, s1) :- ParseData(s, fields[0].ty);
    var (ds, s2) :- ParseRecord(s1, fields[1..]);
    Ok([d] + ds, s2)
  }

  /** A verified record occupies exactly record_size() bytes and is read back unchanged. */
  lemma {:induction false} RecordRoundTrip(fields: seq<Field>, r: Record, rest: seq<byte>)
    requires Verify(fields, r)
    ensures |EncodeRecord(r)| == RecordSize(fields)
    ensures ParseRecord(EncodeRecord(r) + rest, fields) == Ok(r, rest)
  {
    hide ParseData, Encode;
    if r == [] {
      assert EncodeRecord(r) + rest == rest;
    } else {
      RecordRoundTrip(fields[1..], r[1..], rest);
      DataRoundTrip(r[0], EncodeRecord(r[1..]) + rest);
      assert EncodeRecord(r) + rest == Encode(r[0]) + (EncodeRecord(r[1..]) + rest);
      assert r == [r[0]] + r[1..];
    }
  }

  /** Bytes that differ from a record's own only by zeros, and still read as the record, are its own. */
  lemma {:induction false} ZeroedRecord(fields: seq<Field>, r: Record, s: seq<byte>)
    requires Verify(fields, r) && |s| == |EncodeRecord(r)|
    requires forall i | 0 <= i < |s| :: s[i] == EncodeRecord(r)[i] || s[i] == 0
    requires ParseRecord(s, fields).Ok? && ParseRecord(s, fields).value == r
    ensures s == EncodeRecord(r)
  {
    hide Encode, ParseData, TypeOf;
    if r != [] {
      var d, e := r[0], EncodeRecord(r[1..]);
      var n := |Encode(d)|;
      var s1 := ParseData(s, fields[0].ty).rest;
      assert EncodeRecord(r) == Encode(d) + e;
      assert ParseData(s, fields[0].ty).value == d;
      DataParsed(s, fields[0].ty);
      forall i | 0 <= i < |s1| ensures s1[i] == e[i] || s1[i] == 0 { assert s1[i] == s[n + i]; }
      assert ([d] + ParseRecord(s1, fields[1..]).value)[1..] == r[1..];
      ZeroedRecord(fields[1..], r[1..], s1);
      if d.Boolean? { ZeroedBoolean(d, s[..n]); }
      assert s == s[..n] + s[n..];
    }
  }

  lemma ZeroedBoolean(d: Data, s: seq<byte>)
    requires d.Boolean? && |s| == 1 && (s[0] == Encode(d)[0] || s[0] == 0) && (s[0] != 0 <==> d.bit)
    ensures s == Encode(d)
  {
  }

  // ----- fields, schemas and tables; a count or name length is one byte and wraps at 256

  function EncodeField(f: Field): (s: seq<byte>) {
    [|f.name| % 256] + f.name + EncodeType(f.ty)
  }

  function EncodeFields(fs: seq<Field>): (s: seq<byte>) {
    if fs == [] then [] else EncodeField(fs[0]) + EncodeFields(fs[1..])
  }

  function EncodeSchema(c: Schema): (s: seq<byte>) {
    [|c.fields| % 256] + EncodeFields(c.fields) + LittleEndian(c.sortKey, 8) + LittleEndian(c.partitionKey, 8)
  }

  function EncodeTable(t: Table): (s: seq<byte>) {
    [|t.name| % 256] + t.name + EncodeSchema(t.schema) + LittleEndian(t.lastSstable, 8)
  }

  function EncodeTables(ts: seq<Table>): (s: seq<byte>) {
    if ts == [] then [] else EncodeTable(ts[0]) + EncodeTables(ts[1..])
  }

  function FieldSize(f: Field): (n: nat) {
    1 + |f.name| + TYPE_SIZE
  }

  function FieldsSize(fs: seq<Field>): (n: nat) {
    if fs == [] then 0 else FieldSize(fs[0]) + FieldsSize(fs[1..])
  }

  function SchemaSize(c: Schema): (n: nat) {
    1 + FieldsSize(c.fields) + 8 + 8
  }

  function TableSize(t: Table): (n: nat) {
    1 + |t.name| + SchemaSize(t.schema) + 8
  }

  function TablesSize(ts: seq<Table>): (n: nat) {
    if ts == [] then 0 else TableSize(ts[0]) + TablesSize(ts[1..])
  }

  function ParseName(s: seq<byte>): (p: Parsed<ByteString>)
    ensures p.Ok? ==> |p.value| < 256 && |p.rest| < |s|
  {
    var (n, s1) :- ParseUint(s, 1);
    Pow256Values();
    ParseText(s1, n)
  }

  function ParseField(s: seq<byte>): (p: Parsed<Field>)
    ensures p.Ok? ==> |p.value.name| < 256
  {
    var (name, s1) :- ParseName(s);
    var (ty, s2) :- ParseType(s1);
    Ok(Field(name, ty), s2)
  }

  function ParseFields(s: seq<byte>, n: nat): (p: Parsed<seq<Field>>)
    ensures p.Ok? ==> |p.value| == n && |p.rest| <= |s|
    ensures p.Ok? ==> forall i | 0 <= i < n :: |p.value[i].name| < 256
  {
    if n == 0 then Ok([], s) else
    var (f, s1) :- ParseField(s);
    var (fs, s2) :- ParseFields(s1, n - 1);
    Ok([f] + fs, s2)
  }

  function ParseSchema(s: seq<byte>): (p: Parsed<Schema>)
    ensures p.Ok? ==> |p.rest| <= |s|
  {
    Pow256Values();
    var (n, s1) :- ParseUint(s, 1);
    var (fs, s2) :- ParseFields(s1, n);
    var (sort, s3) :- ParseUint(s2, 8);
    var (part, s4) :- ParseUint(s3, 8);
    Ok(Schema(sort, part, fs), s4)
  }

  function ParseTable(s: seq<byte>): (p: Parsed<Table>)
    ensures p.Ok? ==> |p.rest| < |s|
  {
    Pow256Values();
    var (name, s1) :- ParseName(s);
    var (schema, s2) :- ParseSchema(s1);
    var (last, s3) :- ParseUint(s2, 8);
    Ok(Table(name, schema, last), s3)
  }

  /** The reload loop of the Database constructor: tables until the buffer is used up. */
  function ParseTables(s: seq<byte>): (p: Parsed<seq<Table>>)
    decreases |s|
  {
    if s == [] then Ok([], s) else
    var (t, s1) :- ParseTable(s);
    var (ts, s2) :- ParseTables(s1);
    Ok([t] + ts, s2)
  }

  /** Every name and count fits its one-byte length. */
  predicate SchemaFits(c: Schema) {
    |c.fields| < 256 && forall i | 0 <= i < |c.fields| :: |c.fields[i].name| < 256
  }

  predicate Fits(t: Table) {
    |t.name| < 256 && SchemaFits(t.schema)
  }

  predicate AllFit(ts: seq<Table>) {
    forall i | 0 <= i < |ts| :: Fits(ts[i])
  }

  lemma {:induction false} FieldsLength(fs: seq<Field>)
    ensures |EncodeFields(fs)| == FieldsSize(fs)
  {
    if fs != [] { FieldsLength(fs[1..]); }
  }

  lemma TableLength(t: Table)
    ensures |EncodeSchema(t.schema)| == SchemaSize(t.schema)
    ensures |EncodeTable(t)| == TableSize(t)
  {
    FieldsLength(t.schema.fields);
  }

  /** The metadata length that flush_metadata sums is the number of bytes it then puts. */
  lemma {:induction false} TablesLength(ts: seq<Table>)
    ensures |EncodeTables(ts)| == TablesSize(ts)
  {
    if ts != [] {
      TableLength(ts[0]);
      TablesLength(ts[1..]);
    }
  }

  lemma NameRoundTrip(name: ByteString, rest: seq<byte>)
    requires |name| < 256
    ensures ParseName([|name| % 256] + name + rest) == Ok(name, rest)
  {
    Pow256Values();
    var b: seq<byte> := [|name| % 256];
    assert LittleEndian(|name|, 1) == b;
    assert b + name + rest == LittleEndian(|name|, 1) + (name + rest);
    ParseUintOfConcat(|name|, 1, name + rest);
    ParseBytesOfConcat(name, rest);
  }

  lemma FieldRoundTrip(f: Field, rest: seq<byte>)
    requires |f.name| < 256
    ensures ParseField(EncodeField(f) + rest) == Ok(f, rest)
  {
    var tail := EncodeType(f.ty) + rest;
    assert EncodeField(f) + rest == [|f.name| % 256] + f.name + tail;
    NameRoundTrip(f.name, tail);
    TypeRoundTrip(f.ty, rest);
  }

  lemma {:induction false} FieldsRoundTrip(fs: seq<Field>, rest: seq<byte>)
    requires forall i | 0 <= i < |fs| :: |fs[i].name| < 256
    ensures ParseFields(EncodeFields(fs) + rest, |fs|) == Ok(fs, rest)
  {
    hide ParseField, EncodeField;
    if fs == [] {
      assert EncodeFields(fs) + rest == rest;
    } else {
      FieldsRoundTrip(fs[1..], rest);
      assert EncodeFields(fs) + rest == EncodeField(fs[0]) + (EncodeFields(fs[1..]) + rest);
      FieldRoundTrip(fs[0], EncodeFields(fs[1..]) + rest);
      assert fs == [fs[0]] + fs[1..];
    }
  }

  lemma SchemaRoundTrip(c: Schema, rest: seq<byte>)
    requires SchemaFits(c)
    ensures ParseSchema(EncodeSchema(c) + rest) == Ok(c, rest)
  {
    Pow256Values();
    var s3 := LittleEndian(c.partitionKey, 8) + rest;
    var s2 := LittleEndian(c.sortKey, 8) + s3;
    var s1 := EncodeFields(c.fields) + s2;
    assert LittleEndian(|c.fields|, 1) == [|c.fields| % 256];
    assert EncodeSchema(c) + rest == LittleEndian(|c.fields|, 1) + s1;
    ParseUintOfConcat(|c.fields|, 1, s1);
    FieldsRoundTrip(c.fields, s2);
    ParseUintOfConcat(c.sortKey, 8, s3);
    ParseUintOfConcat(c.partitionKey, 8, rest);
  }

  lemma TableRoundTrip(t: Table, rest: seq<byte>)
    requires Fits(t)
    ensures ParseTable(EncodeTable(t) + rest) == Ok(t, rest)
  {
    Pow256Values();
    var s2 := LittleEndian(t.lastSstable, 8) + rest;
    var s1 := EncodeSchema(t.schema) + s2;
    assert EncodeTable(t) + rest == [|t.name| % 256] + t.name + s1;
    NameRoundTrip(t.name, s1);
    SchemaRoundTrip(t.schema, s2);
    ParseUintOfConcat(t.lastSstable, 8, rest);
  }

  lemma {:induction false} TablesRoundTrip(ts: seq<Table>)
    requires AllFit(ts)
    ensures ParseTables(EncodeTables(ts)) == Ok(ts, [])
  {
    hide ParseTable, EncodeTable;
    if ts != [] {
      TablesRoundTrip(ts[1..]);
      TableRoundTrip(ts[0], EncodeTables(ts[1..]));
      assert ts == [ts[0]] + ts[1..];
    }
  }

  lemma ParsedTableFits(s: seq<byte>)
    ensures ParseTable(s).Ok? ==> Fits(ParseTable(s).value)
  {
    hide ParseFields, ParseName;
    Pow256Values();
  }

  lemma {:induction false} ParsedTablesFit(s: seq<byte>)
    ensures ParseTables(s).Ok? ==> AllFit(ParseTables(s).value) && ParseTables(s).rest == []
    decreases |s|
  {
    hide ParseTable;
    if s != [] && ParseTable(s).Ok? {
      ParsedTableFits(s);
      ParsedTablesFit(ParseTable(s).rest);
    }
  }

  /** What the parsers consume is the size of what they return. */
  lemma {:induction false} ParsedFieldsSize(s: seq<byte>, n: nat)
    ensures var p := ParseFields(s, n); p.Ok? ==> FieldsSize(p.value) + |p.rest| == |s|
    decreases n
  {
    hide ParseName, ParseType;
    if n > 0 && ParseField(s).Ok? {
      ParsedNameSize(s);
      var p := ParseFields(ParseField(s).rest, n - 1);
      ParsedFieldsSize(ParseField(s).rest, n - 1);
      if p.Ok? { assert ([ParseField(s).value] + p.value)[1..] == p.value; }
    }
  }

  lemma ParsedNameSize(s: seq<byte>)
    ensures var p := ParseName(s); p.Ok? ==> 1 + |p.value| + |p.rest| == |s|
  {
  }

  lemma ParsedTableSize(s: seq<byte>)
    ensures var p := ParseTable(s); p.Ok? ==> TableSize(p.value) + |p.rest| == |s|
  {
    hide ParseName, ParseFields, FieldsSize;
    Pow256Values();
    ParsedNameSize(s);
    forall t: seq<byte>, n: nat
      ensures var p := ParseFields(t, n); p.Ok? ==> FieldsSize(p.value) + |p.rest| == |t|
    {
      ParsedFieldsSize(t, n);
    }
  }

  lemma {:induction false} ParsedTablesSize(s: seq<byte>)
    ensures var p := ParseTables(s); p.Ok? ==> TablesSize(p.value) == |s|
    decreases |s|
  {
    hide ParseTable, TableSize;
    if s != [] && ParseTable(s).Ok? {
      ParsedTableSize(s);
      var p := ParseTables(ParseTable(s).rest);
      ParsedTablesSize(ParseTable(s).rest);
      if p.Ok? { assert ([ParseTable(s).value] + p.value)[1..] == p.value; }
    }
  }

  /** Exactly the catalogs whose names and counts fit one byte survive a write and a reload. */
  lemma TablesRoundTripIff(ts: seq<Table>)
    ensures ParseTables(EncodeTables(ts)) == Ok(ts, []) <==> AllFit(ts)
  {
    if AllFit(ts) { TablesRoundTrip(ts); }
    ParsedTablesFit(EncodeTables(ts));
  }

  // ----- the formats, written out

  const COLUMN_A := Field([97], Type(INT, 4))
  const COLUMN_B := Field([98], Type(ASCII, 3))

  lemma FieldBytes()
    ensures EncodeField(COLUMN_A) == [1, 97] + [5, 4, 0, 0, 0] && EncodeField(COLUMN_B) == [1, 98] + [0, 3, 0, 0, 0]
  {
    TypeBytes(4);
    TypeBytes(3);
    hide EncodeType;
  }

  lemma SchemaBytes()
    ensures EncodeSchema(Schema(1, 0, [COLUMN_A, COLUMN_B])) ==
      [2] + (EncodeField(COLUMN_A) + EncodeField(COLUMN_B)) + [1, 0, 0, 0, 0, 0, 0, 0] + [0, 0, 0, 0, 0, 0, 0, 0]
  {
    EightBytes(1);
    EightBytes(0);
    hide LittleEndian, EncodeField;
    var fields := [COLUMN_A, COLUMN_B];
    assert fields[1..] == [fields[1]] && fields[1..][1..] == [];
    assert EncodeFields(fields[1..]) == EncodeField(COLUMN_B) + EncodeFields([]);
    assert EncodeFields(fields) == EncodeField(COLUMN_A) + EncodeField(COLUMN_B);
  }

  /** The catalog entry of table "t" with the columns a INT and b ASCII(3), sort key 1, partition key 0
      and 258 sstables. */
  lemma TableBytes()
    ensures EncodeTable(Table([116], Schema(1, 0, [COLUMN_A, COLUMN_B]), 258)) ==
      [1, 116]
      + ([2] + ([1, 97] + [5, 4, 0, 0, 0] + ([1, 98] + [0, 3, 0, 0, 0]))
         + [1, 0, 0, 0, 0, 0, 0, 0] + [0, 0, 0, 0, 0, 0, 0, 0])
      + [2, 1, 0, 0, 0, 0, 0, 0]
  {
    FieldBytes();
    SchemaBytes();
    EightBytes(258);
    hide LittleEndian, EncodeField, EncodeSchema;
    assert [1] + [116] == [1, 116];
  }

  /** The record (-2, "xyz") of that table. */
  lemma RecordBytes()
    ensures EncodeRecord([Int(-2), Ascii([120, 121, 122])]) == [254, 255, 255, 255, 120, 121, 122]
  {
    var r: Record := [Int(-2), Ascii([120, 121, 122])];
    Pow256Values();
    FourBytes(0xffff_fffe);
    hide LittleEndian;
    assert r[1..] == [r[1]] && r[1..][1..] == [];
    assert EncodeRecord(r[1..]) == Encode(r[1]) + EncodeRecord([]);
  }
}
